/**
 * `hashJoin`: joins a dictionary of (term, gloss) rows with the nominal
 * terms of a segmented document, writing a line `<gloss>term</gloss>` for
 * each term found in both. The double-pipelined join reads the two inputs
 * alternately and keeps a hash table for each side; each arrival probes the
 * other side's table and is then stored in its own.
 */
module HashJoins {
  import opened Wrappers
  import opened Strings
  import opened Dictionaries

  /** The initial capacity of the document table. */
  const SIZE := 2003
  /** The length of the key-length histogram `loadDict` keeps. */
  const FREQ_CAP := 35

  /** One output line `<gloss>term</gloss>`, kept as the pair it formats. */
  datatype Match = Match(gloss: string, term: string)

  /** The text of an output line. */
  function Line(m: Match): string
  {
    Tag(m.gloss, m.term)
  }

  /**
   * One arrival at the join: a document term, which probes the dictionary; a
   * dictionary entry, which probes the document; or a dictionary entry put
   * without probing (the loading phase of the simple join).
   */
  datatype Arrival = Term(key: string) | Entry(key: string, gloss: string) | Load(key: string, gloss: string)

  /**
   * The dictionary multimap, the document table and the lines written so
   * far. Option 0 writes the glosses of a term in hash-set order, so the
   * lines are counted, not ordered.
   */
  datatype Tables = Tables(dict: Dict, doc: map<string, string>, out: multiset<Match>)

  /** The tables before anything arrives. */
  const Empty := Tables(map[], map[], multiset{})

  /** The lines a document term `key` writes: one per gloss of `key`. */
  ghost function GlossMatches(g: set<string>, key: string): multiset<Match>
  {
    multiset(set w | w in g :: Match(w, key))
  }

  lemma GlossMatchesCount(g: set<string>, key: string, m: Match)
    ensures GlossMatches(g, key)[m] == if m.term == key && m.gloss in g then 1 else 0
  {
    if m.term == key && m.gloss in g {
      assert m in set w | w in g :: Match(w, key);
    }
  }

  lemma GlossMatchesAdd(g: set<string>, w: string, key: string)
    requires w !in g
    ensures GlossMatches(g + {w}, key) == GlossMatches(g, key) + multiset{Match(w, key)}
  {
    assert (set x | x in g + {w} :: Match(x, key)) == (set x | x in g :: Match(x, key)) + {Match(w, key)};
  }

  /** `probeAndInsert(key, word, 0)`: probe the dictionary with a document term, then store it. */
  ghost function ProbeDictionary(st: Tables, key: string, word: string): Tables
  {
    Tables(st.dict, st.doc[key := word], st.out + GlossMatches(Get(st.dict, key), key))
  }

  /** `probeAndInsert(key, gloss, 1)`: probe the document with a dictionary entry, then put it. */
  ghost function ProbeDocument(st: Tables, key: string, gloss: string): Tables
  {
    Tables(Put(st.dict, key, gloss), st.doc, st.out + if key in st.doc then multiset{Match(gloss, key)} else multiset{})
  }

  /** The effect of one arrival. */
  ghost function Step(st: Tables, a: Arrival): Tables
  {
    match a
    case Term(k) => ProbeDictionary(st, k, k)
    case Entry(k, g) => ProbeDocument(st, k, g)
    case Load(k, g) => Tables(Put(st.dict, k, g), st.doc, st.out)
  }

  /** The tables after the arrivals of `arr`, in order. */
  ghost function Run(st: Tables, arr: seq<Arrival>): Tables
    decreases |arr|
  {
    if arr == [] then st else Step(Run(st, arr[..|arr| - 1]), arr[|arr| - 1])
  }

  lemma RunSnoc(st: Tables, arr: seq<Arrival>, a: Arrival)
    ensures Run(st, arr + [a]) == Step(Run(st, arr), a)
  {
    assert (arr + [a])[..|arr|] == arr;
  }

  lemma {:induction false} RunCons(st: Tables, a: Arrival, arr: seq<Arrival>)
    ensures Run(st, [a] + arr) == Run(Step(st, a), arr)
    decreases |arr|
  {
    if arr == [] {
      assert [a] + arr == [] + [a];
      RunSnoc(st, [], a);
    } else {
      var p := arr[..|arr| - 1];
      var z := arr[|arr| - 1];
      assert arr == p + [z];
      assert [a] + arr == ([a] + p) + [z];
      RunSnoc(st, [a] + p, z);
      RunCons(st, a, p);
      RunSnoc(Step(st, a), p, z);
    }
  }

  /** A sequence holding no arrival of the simple join's loading kind. */
  ghost predicate NoLoads(arr: seq<Arrival>)
  {
    forall a :: a in arr ==> !a.Load?
  }

  /**
   * From empty tables, a term is stored in the document table exactly when
   * it arrived, and a gloss is in the dictionary exactly when an entry for
   * it arrived.
   */
  lemma {:induction false} RunTables(arr: seq<Arrival>, k: string, w: string)
    ensures k in Run(Empty, arr).doc <==> Term(k) in arr
    ensures w in Get(Run(Empty, arr).dict, k) <==> Entry(k, w) in arr || Load(k, w) in arr
    decreases |arr|
  {
    if arr != [] {
      var p := arr[..|arr| - 1];
      assert arr == p + [arr[|arr| - 1]];
      RunTables(p, k, w);
      StepTables(Run(Empty, p), arr[|arr| - 1], k, w);
    }
  }

  /** One arrival stores the term it carries and puts the entry it carries, and nothing else. */
  lemma StepTables(st: Tables, a: Arrival, k: string, w: string)
    ensures k in Step(st, a).doc <==> k in st.doc || a == Term(k)
    ensures w in Get(Step(st, a).dict, k) <==> w in Get(st.dict, k) || a == Entry(k, w) || a == Load(k, w)
  {
  }

  /**
   * The symmetric join finds exactly the matches: from empty tables, the line
   * for (`w`, `k`) is written when and only when the term `k` and the entry
   * (`k`, `w`) both arrived, whichever came first.
   */
  lemma {:induction false} SymmetricJoinFinds(arr: seq<Arrival>, k: string, w: string)
    requires NoLoads(arr)
    ensures Match(w, k) in Run(Empty, arr).out <==> Term(k) in arr && Entry(k, w) in arr
    decreases |arr|
  {
    if arr != [] {
      var p := arr[..|arr| - 1];
      var a := arr[|arr| - 1];
      assert arr == p + [a];
      assert NoLoads(p);
      SymmetricJoinFinds(p, k, w);
      RunTables(p, k, w);
      var st := Run(Empty, p);
      match a
      case Term(k') =>
        GlossMatchesCount(Get(st.dict, k'), k', Match(w, k));
      case Entry(k', w') =>
      case Load(_, _) =>
    }
  }

  /**
   * With one arrival of the term `k` and one of the entry (`k`, `w`), their
   * line is written exactly once — by whichever of the two arrives second.
   */
  lemma {:induction false} SymmetricJoinOnce(arr: seq<Arrival>, k: string, w: string)
    requires NoLoads(arr)
    requires multiset(arr)[Term(k)] <= 1 && multiset(arr)[Entry(k, w)] <= 1
    ensures Run(Empty, arr).out[Match(w, k)] == if Term(k) in arr && Entry(k, w) in arr then 1 else 0
    decreases |arr|
  {
    if arr != [] {
      var p := arr[..|arr| - 1];
      var a := arr[|arr| - 1];
      assert arr == p + [a];
      assert multiset(arr) == multiset(p) + multiset{a};
      assert NoLoads(p);
      SymmetricJoinOnce(p, k, w);
      RunTables(p, k, w);
      var st := Run(Empty, p);
      match a
      case Term(k') =>
        GlossMatchesCount(Get(st.dict, k'), k', Match(w, k));
      case Entry(k', w') =>
      case Load(_, _) =>
    }
  }

  /**
   * The simple join, all entries loaded before any term arrives: each
   * arrival of the term `k` writes the line for (`w`, `k`) once when the
   * entry (`k`, `w`) was loaded.
   */
  lemma {:induction false} LoadThenProbe(loads: seq<Arrival>, terms: seq<Arrival>, k: string, w: string)
    requires forall i :: 0 <= i < |loads| ==> loads[i].Load?
    requires forall i :: 0 <= i < |terms| ==> terms[i].Term?
    ensures Run(Empty, loads + terms).out[Match(w, k)] == if Load(k, w) in loads then multiset(terms)[Term(k)] else 0
    decreases |terms|
  {
    if terms == [] {
      assert loads + terms == loads;
      LoadsWriteNothing(loads);
    } else {
      var p := terms[..|terms| - 1];
      var a := terms[|terms| - 1];
      assert terms == p + [a];
      assert loads + terms == (loads + p) + [a];
      assert multiset(terms) == multiset(p) + multiset{a};
      LoadThenProbe(loads, p, k, w);
      RunTables(loads + p, a.key, w);
      RunSnoc(Empty, loads + p, a);
      assert Entry(a.key, w) !in loads + p;
      assert Load(a.key, w) in loads + p <==> Load(a.key, w) in loads;
      GlossMatchesCount(Get(Run(Empty, loads + p).dict, a.key), a.key, Match(w, k));
    }
  }

  /** Loading writes nothing. */
  lemma {:induction false} LoadsWriteNothing(loads: seq<Arrival>)
    requires forall i :: 0 <= i < |loads| ==> loads[i].Load?
    ensures Run(Empty, loads).out == multiset{}
    decreases |loads|
  {
    if loads != [] {
      LoadsWriteNothing(loads[..|loads| - 1]);
    }
  }

  // ----- Reading the inputs -----

  /** What a join reads next: a CSV row of the alternating phase, of the drain, or of the simple join's load; or a document token. */
  datatype Read = AltRow(row: seq<string>) | DrainRow(row: seq<string>) | PlainRow(row: seq<string>) | Token(token: string)

  /** A token that holds `"/n"` holds a `'/'`. */
  lemma SlashInNominal(t: string)
    requires HasSubstring(t, "/n")
    ensures '/' in t
  {
    HasSubstringIffOccurs(t, "/n");
    var i :| 0 <= i <= |t| - 2 && OccursAt(t, "/n", i);
    assert t[i] == t[i..i + 2][0];
  }

  /** The term a document token stands for: a token tagged as a noun (holding `"/n"`) cut at its first `'/'`. */
  function TokenKey(t: string): (r: Option<string>)
    ensures r.Some? <==> HasSubstring(t, "/n")
    ensures r.Some? ==> r.value <= t && '/' !in r.value
    ensures r.Some? ==> |r.value| < |t| && t[|r.value|] == '/'
  {
    if HasSubstring(t, "/n") then
      SlashInNominal(t);
      Some(t[..IndexOf(t, '/')])
    else None
  }

  /** The gloss of a row in the alternating phase: column 0 when the template is empty, else the template with every `~` replaced by column 0. */
  function AltGloss(row: seq<string>): string
    requires |row| > CHN_IDX
  {
    if row[TEMPLATE_IDX] == "" then row[GLOSS_IDX] else Replace(row[TEMPLATE_IDX], '~', row[GLOSS_IDX])
  }

  /**
   * The arrival one read makes: none for a token that is not a noun, and
   * none when `docName` is empty (the guard tests the file name parameter,
   * which shadows the document table); a row without a term column throws.
   */
  function Arrive(r: Read, docName: string): Result<Option<Arrival>>
  {
    match r
    case AltRow(row) =>
      if |row| <= CHN_IDX then Err(ArrayIndexOutOfBounds) else Ok(Some(Entry(row[CHN_IDX], AltGloss(row))))
    case DrainRow(row) =>
      if |row| <= CHN_IDX then Err(ArrayIndexOutOfBounds) else Ok(Some(Entry(row[CHN_IDX], row[GLOSS_IDX])))
    case PlainRow(row) =>
      if |row| <= CHN_IDX then Err(ArrayIndexOutOfBounds) else Ok(Some(Load(row[CHN_IDX], row[GLOSS_IDX])))
    case Token(t) =>
      Ok(if TokenKey(t).Some? && |docName| != 0 then Some(Term(TokenKey(t).value)) else None)
  }

  /** The tables after the reads of `rds`, and whether all of them succeeded: a failing read stops the join. */
  ghost function Apply(st: Tables, rds: seq<Read>, docName: string): (Tables, bool)
    decreases |rds|
  {
    if rds == [] then (st, true)
    else
      match Arrive(rds[0], docName)
      case Err(_) => (st, false)
      case Ok(None) => Apply(st, rds[1..], docName)
      case Ok(Some(a)) => Apply(Step(st, a), rds[1..], docName)
  }

  /** The tables after one successful read. */
  ghost function AfterRead(st: Tables, r: Read, docName: string): Tables
  {
    match Arrive(r, docName)
    case Ok(Some(a)) => Step(st, a)
    case _ => st
  }

  lemma ApplyCons(st: Tables, r: Read, rest: seq<Read>, docName: string)
    ensures Apply(st, [r] + rest, docName) ==
      if Arrive(r, docName).Err? then (st, false) else Apply(AfterRead(st, r, docName), rest, docName)
  {
    assert ([r] + rest)[0] == r && ([r] + rest)[1..] == rest;
  }

  /** The arrivals the reads of `rds` make. */
  ghost function Arrivals(rds: seq<Read>, docName: string): seq<Arrival>
    decreases |rds|
  {
    if rds == [] then []
    else
      match Arrive(rds[0], docName)
      case Ok(Some(a)) => [a] + Arrivals(rds[1..], docName)
      case _ => Arrivals(rds[1..], docName)
  }

  /** Every read of `rds` succeeds. */
  ghost predicate Readable(rds: seq<Read>, docName: string)
  {
    forall i :: 0 <= i < |rds| ==> Arrive(rds[i], docName).Ok?
  }

  /** A join succeeds exactly when every read does, and then it is the run of their arrivals. */
  lemma {:induction false} ApplyRuns(st: Tables, rds: seq<Read>, docName: string)
    ensures Apply(st, rds, docName).1 <==> Readable(rds, docName)
    ensures Readable(rds, docName) ==> Apply(st, rds, docName).0 == Run(st, Arrivals(rds, docName))
    decreases |rds|
  {
    if rds != [] {
      var rest := rds[1..];
      assert Readable(rds, docName) <==> Arrive(rds[0], docName).Ok? && Readable(rest, docName) by {
        if Arrive(rds[0], docName).Ok? && Readable(rest, docName) {
          forall i | 0 <= i < |rds| ensures Arrive(rds[i], docName).Ok? {
            if i > 0 {
              assert rds[i] == rest[i - 1];
            }
          }
        }
      }
      match Arrive(rds[0], docName)
      case Err(_) =>
      case Ok(None) =>
        ApplyRuns(st, rest, docName);
      case Ok(Some(a)) =>
        ApplyRuns(Step(st, a), rest, docName);
        RunCons(st, a, Arrivals(rest, docName));
    }
  }

  lemma {:induction false} ArrivalsAppend(a: seq<Read>, b: seq<Read>, docName: string)
    ensures Arrivals(a + b, docName) == Arrivals(a, docName) + Arrivals(b, docName)
    decreases |a|
  {
    if a == [] {
      assert a + b == b;
    } else {
      assert (a + b)[1..] == a[1..] + b;
      ArrivalsAppend(a[1..], b, docName);
    }
  }

  /** The drain of the remaining rows. */
  function DrainRows(rows: seq<seq<string>>): (rds: seq<Read>)
    ensures |rds| == |rows|
  {
    seq(|rows|, i requires 0 <= i < |rows| => DrainRow(rows[i]))
  }

  /** The simple join's load of all rows. */
  function PlainRows(rows: seq<seq<string>>): (rds: seq<Read>)
    ensures |rds| == |rows|
  {
    seq(|rows|, i requires 0 <= i < |rows| => PlainRow(rows[i]))
  }

  /** The reads of the remaining tokens. */
  function TokenReads(tokens: seq<string>): (rds: seq<Read>)
    ensures |rds| == |tokens|
  {
    seq(|tokens|, i requires 0 <= i < |tokens| => Token(tokens[i]))
  }

  /**
   * The reads of `doublePipelinedHashJoin` still to come with `rows` and
   * `tokens` unread: while a token remains it alternates, a row when
   * `fromDict`, else a token; it drains the rows once the tokens or — on its
   * turn — the rows run out, and then drains the tokens.
   */
  function Pending(rows: seq<seq<string>>, tokens: seq<string>, fromDict: bool): seq<Read>
    decreases |rows| + |tokens|
  {
    if tokens == [] || (fromDict && rows == []) then DrainRows(rows) + TokenReads(tokens)
    else if fromDict then [AltRow(rows[0])] + Pending(rows[1..], tokens, false)
    else [Token(tokens[0])] + Pending(rows, tokens[1..], true)
  }

  /** The reads of `doublePipelinedHashJoin`, in order. */
  function Schedule(rows: seq<seq<string>>, tokens: seq<string>): seq<Read>
  {
    Pending(rows, tokens, true)
  }

  /** Row `i` and token `i` read in turn, starting with the row. */
  function Interleave(rows: seq<seq<string>>, tokens: seq<string>): (rds: seq<Read>)
    requires |rows| == |tokens|
    ensures |rds| == 2 * |rows|
  {
    if rows == [] then [] else [AltRow(rows[0]), Token(tokens[0])] + Interleave(rows[1..], tokens[1..])
  }

  /**
   * The schedule reads the first `m` rows and tokens in turn, `m` the
   * length of the shorter input, then the remaining rows, then the remaining
   * tokens: every row and every token is read once, in its own order.
   */
  lemma {:induction false} ScheduleShape(rows: seq<seq<string>>, tokens: seq<string>)
    ensures var m := if |rows| < |tokens| then |rows| else |tokens|;
      Schedule(rows, tokens) == Interleave(rows[..m], tokens[..m]) + DrainRows(rows[m..]) + TokenReads(tokens[m..])
    decreases |rows| + |tokens|
  {
    var m := if |rows| < |tokens| then |rows| else |tokens|;
    if m == 0 {
      assert rows[m..] == rows && tokens[m..] == tokens;
      assert Interleave(rows[..m], tokens[..m]) == [];
    } else {
      var rows', tokens', m' := rows[1..], tokens[1..], m - 1;
      ScheduleShape(rows', tokens');
      assert rows'[m'..] == rows[m..];
      assert tokens'[m'..] == tokens[m..];
      ScheduleTwo(rows, tokens);
      InterleaveTwo(rows, tokens, m);
      ShapeStep([AltRow(rows[0]), Token(tokens[0])], Schedule(rows', tokens'), Interleave(rows'[..m'], tokens'[..m']),
        Interleave(rows[..m], tokens[..m]), DrainRows(rows[m..]), TokenReads(tokens[m..]));
    }
  }

  /** Prefixing the first phase of a three-phase sequence. */
  lemma ShapeStep(head: seq<Read>, rest: seq<Read>, a': seq<Read>, a: seq<Read>, b: seq<Read>, c: seq<Read>)
    requires rest == a' + b + c && a == head + a'
    ensures head + rest == a + b + c
  {
  }

  /** With a row and a token left, the schedule reads the row, then the token. */
  lemma ScheduleTwo(rows: seq<seq<string>>, tokens: seq<string>)
    requires rows != [] && tokens != []
    ensures Schedule(rows, tokens) == [AltRow(rows[0]), Token(tokens[0])] + Schedule(rows[1..], tokens[1..])
  {
    assert Pending(rows, tokens, true) == [AltRow(rows[0])] + Pending(rows[1..], tokens, false);
    assert Pending(rows[1..], tokens, false) == [Token(tokens[0])] + Pending(rows[1..], tokens[1..], true);
  }

  /** The first `m` rows and tokens interleaved start with the first row and the first token. */
  lemma InterleaveTwo(rows: seq<seq<string>>, tokens: seq<string>, m: int)
    requires 0 < m <= |rows| && m <= |tokens|
    ensures Interleave(rows[..m], tokens[..m]) == [AltRow(rows[0]), Token(tokens[0])] + Interleave(rows[1..][..m - 1], tokens[1..][..m - 1])
  {
    assert rows[1..][..m - 1] == rows[..m][1..] && tokens[1..][..m - 1] == tokens[..m][1..];
  }

  /** The reads of `simpleHashJoin`: all rows loaded, then all tokens. */
  function SimpleSchedule(rows: seq<seq<string>>, tokens: seq<string>): seq<Read>
  {
    PlainRows(rows) + TokenReads(tokens)
  }

  // ----- What the joins write -----

  /** Some token of `tokens` is a noun standing for the term `k`. */
  ghost predicate NounIn(tokens: seq<string>, k: string)
  {
    exists i :: 0 <= i < |tokens| && TokenKey(tokens[i]) == Some(k)
  }

  /** The number of tokens of `tokens` that are nouns standing for the term `k`. */
  function NounCount(tokens: seq<string>, k: string): (n: nat)
    ensures n <= |tokens|
  {
    if tokens == [] then 0 else (if TokenKey(tokens[0]) == Some(k) then 1 else 0) + NounCount(tokens[1..], k)
  }

  /** The tokens probe with their noun terms, one probe per noun token. */
  lemma {:induction false} TokenArrivals(tokens: seq<string>, docName: string, k: string)
    requires |docName| != 0
    ensures Term(k) in Arrivals(TokenReads(tokens), docName) <==> NounIn(tokens, k)
    ensures multiset(Arrivals(TokenReads(tokens), docName))[Term(k)] == NounCount(tokens, k)
    ensures forall a :: a in Arrivals(TokenReads(tokens), docName) ==> a.Term?
    ensures Readable(TokenReads(tokens), docName)
    decreases |tokens|
  {
    if tokens != [] {
      var rest := Arrivals(TokenReads(tokens[1..]), docName);
      var head := if TokenKey(tokens[0]).Some? then [Term(TokenKey(tokens[0]).value)] else [];
      assert Arrivals(TokenReads(tokens), docName) == head + rest by {
        assert TokenReads(tokens)[1..] == TokenReads(tokens[1..]);
        assert TokenReads(tokens)[0] == Token(tokens[0]);
      }
      TokenArrivals(tokens[1..], docName, k);
      NounInCons(tokens, k);
      assert multiset(head + rest) == multiset(head) + multiset(rest);
    }
  }

  /** Every row has the term column. */
  ghost predicate WellFormedRows(rows: seq<seq<string>>)
  {
    forall i :: 0 <= i < |rows| ==> |rows[i]| > CHN_IDX
  }

  /** Some row of `rows` gives the entry (`k`, `w`) under the gloss rule `alt` (the alternating phase's) or column 0. */
  ghost predicate RowGives(rows: seq<seq<string>>, k: string, w: string, alt: bool)
  {
    exists i :: 0 <= i < |rows| && |rows[i]| > CHN_IDX && rows[i][CHN_IDX] == k && w == (if alt then AltGloss(rows[i]) else rows[i][GLOSS_IDX])
  }

  lemma RowGivesCons(rows: seq<seq<string>>, k: string, w: string, alt: bool)
    requires rows != []
    ensures RowGives(rows, k, w, alt) <==>
      (|rows[0]| > CHN_IDX && rows[0][CHN_IDX] == k && w == (if alt then AltGloss(rows[0]) else rows[0][GLOSS_IDX])) ||
      RowGives(rows[1..], k, w, alt)
  {
    if RowGives(rows, k, w, alt) {
      var i :| 0 <= i < |rows| && |rows[i]| > CHN_IDX && rows[i][CHN_IDX] == k && w == (if alt then AltGloss(rows[i]) else rows[i][GLOSS_IDX]);
      if i > 0 {
        assert rows[1..][i - 1] == rows[i];
      }
    }
    if RowGives(rows[1..], k, w, alt) {
      var i :| 0 <= i < |rows[1..]| && |rows[1..][i]| > CHN_IDX && rows[1..][i][CHN_IDX] == k && w == (if alt then AltGloss(rows[1..][i]) else rows[1..][i][GLOSS_IDX]);
      assert rows[i + 1] == rows[1..][i];
    }
  }

  lemma NounInCons(tokens: seq<string>, k: string)
    requires tokens != []
    ensures NounIn(tokens, k) <==> TokenKey(tokens[0]) == Some(k) || NounIn(tokens[1..], k)
  {
    if NounIn(tokens, k) {
      var i :| 0 <= i < |tokens| && TokenKey(tokens[i]) == Some(k);
      if i > 0 {
        assert tokens[1..][i - 1] == tokens[i];
      }
    }
    if NounIn(tokens[1..], k) {
      var i :| 0 <= i < |tokens[1..]| && TokenKey(tokens[1..][i]) == Some(k);
      assert tokens[i + 1] == tokens[1..][i];
    }
  }

  lemma {:induction false} ReadableAppend(a: seq<Read>, b: seq<Read>, docName: string)
    requires Readable(a, docName) && Readable(b, docName)
    ensures Readable(a + b, docName)
  {
    forall i | 0 <= i < |a + b| ensures Arrive((a + b)[i], docName).Ok? {
      if i >= |a| {
        assert (a + b)[i] == b[i - |a|];
      }
    }
  }

  /** The alternating phase: every row arrives as an entry under the alternating gloss rule, every noun token as a term. */
  lemma {:induction false} InterleaveArrivals(rows: seq<seq<string>>, tokens: seq<string>, docName: string, k: string, w: string)
    requires |rows| == |tokens| && |docName| != 0 && WellFormedRows(rows)
    ensures Readable(Interleave(rows, tokens), docName)
    ensures NoLoads(Arrivals(Interleave(rows, tokens), docName))
    ensures Entry(k, w) in Arrivals(Interleave(rows, tokens), docName) <==> RowGives(rows, k, w, true)
    ensures Term(k) in Arrivals(Interleave(rows, tokens), docName) <==> NounIn(tokens, k)
    decreases |rows|
  {
    if rows != [] {
      var rest := Interleave(rows[1..], tokens[1..]);
      var head := [AltRow(rows[0]), Token(tokens[0])];
      assert WellFormedRows(rows[1..]) by {
        forall i | 0 <= i < |rows[1..]| ensures |rows[1..][i]| > CHN_IDX {
          assert rows[1..][i] == rows[i + 1];
        }
      }
      InterleaveArrivals(rows[1..], tokens[1..], docName, k, w);
      assert Interleave(rows, tokens) == head + rest;
      ArrivalsAppend(head, rest, docName);
      assert head[1..][1..] == [];
      assert Readable(head, docName) by {
        assert |rows[0]| > CHN_IDX;
      }
      ReadableAppend(head, rest, docName);
      RowGivesCons(rows, k, w, true);
      NounInCons(tokens, k);
    }
  }

  /** The drain: every row arrives as an entry glossed with its column 0. */
  lemma {:induction false} DrainArrivals(rows: seq<seq<string>>, docName: string, k: string, w: string)
    requires WellFormedRows(rows)
    ensures Readable(DrainRows(rows), docName)
    ensures NoLoads(Arrivals(DrainRows(rows), docName))
    ensures forall a :: a in Arrivals(DrainRows(rows), docName) ==> a.Entry?
    ensures Entry(k, w) in Arrivals(DrainRows(rows), docName) <==> RowGives(rows, k, w, false)
    decreases |rows|
  {
    if rows != [] {
      assert DrainRows(rows)[1..] == DrainRows(rows[1..]);
      assert WellFormedRows(rows[1..]) by {
        forall i | 0 <= i < |rows[1..]| ensures |rows[1..][i]| > CHN_IDX {
          assert rows[1..][i] == rows[i + 1];
        }
      }
      DrainArrivals(rows[1..], docName, k, w);
      assert |rows[0]| > CHN_IDX;
      RowGivesCons(rows, k, w, false);
    }
  }

  /** The simple join's load: every row arrives as a loaded entry glossed with its column 0. */
  lemma {:induction false} PlainArrivals(rows: seq<seq<string>>, docName: string, k: string, w: string)
    requires WellFormedRows(rows)
    ensures Readable(PlainRows(rows), docName)
    ensures forall a :: a in Arrivals(PlainRows(rows), docName) ==> a.Load?
    ensures Load(k, w) in Arrivals(PlainRows(rows), docName) <==> RowGives(rows, k, w, false)
    decreases |rows|
  {
    if rows != [] {
      assert PlainRows(rows)[1..] == PlainRows(rows[1..]);
      assert WellFormedRows(rows[1..]) by {
        forall i | 0 <= i < |rows[1..]| ensures |rows[1..][i]| > CHN_IDX {
          assert rows[1..][i] == rows[i + 1];
        }
      }
      PlainArrivals(rows[1..], docName, k, w);
      assert |rows[0]| > CHN_IDX;
      RowGivesCons(rows, k, w, false);
    }
  }

  /**
   * The rows the double-pipelined join reads in its alternating phase — the
   * first as many as there are tokens — carry the alternating gloss; the
   * rows it drains carry column 0.
   */
  ghost predicate PipelinedEntry(rows: seq<seq<string>>, tokens: seq<string>, k: string, w: string)
  {
    exists i :: 0 <= i < |rows| && |rows[i]| > CHN_IDX && rows[i][CHN_IDX] == k &&
      w == (if i < |tokens| then AltGloss(rows[i]) else rows[i][GLOSS_IDX])
  }

  /**
   * `doublePipelinedHashJoin` on well-formed rows, from empty tables and with
   * a non-empty document name: it succeeds, and writes the line for (`w`,
   * `k`) exactly when some token is the noun `k` and some row gives the
   * entry (`k`, `w`).
   */
  lemma DoubleJoinFinds(rows: seq<seq<string>>, tokens: seq<string>, docName: string, k: string, w: string)
    requires |docName| != 0 && WellFormedRows(rows)
    ensures Apply(Empty, Schedule(rows, tokens), docName).1
    ensures Match(w, k) in Apply(Empty, Schedule(rows, tokens), docName).0.out <==>
      NounIn(tokens, k) && PipelinedEntry(rows, tokens, k, w)
  {
    var m := if |rows| < |tokens| then |rows| else |tokens|;
    var sched := Schedule(rows, tokens);
    var arr := Arrivals(sched, docName);
    ScheduleArrivals(rows, tokens, docName, k, w);
    InterleaveArrivals(rows[..m], tokens[..m], docName, k, w);
    DrainArrivals(rows[m..], docName, k, w);
    TokenArrivals(tokens[m..], docName, k);
    ApplyRuns(Empty, sched, docName);
    assert NoLoads(arr);
    SymmetricJoinFinds(arr, k, w);
    assert Term(k) in arr <==> NounIn(tokens, k) by {
      NounInSplit(tokens, m, k);
    }
    assert Entry(k, w) in arr <==> PipelinedEntry(rows, tokens, k, w) by {
      PipelinedEntrySplit(rows, tokens, m, k, w);
    }
  }

  /** The arrivals of the double pipelined schedule, phase by phase; a non-empty document name makes every read succeed. */
  lemma ScheduleArrivals(rows: seq<seq<string>>, tokens: seq<string>, docName: string, k: string, w: string)
    requires |docName| != 0 && WellFormedRows(rows)
    ensures var m := if |rows| < |tokens| then |rows| else |tokens|;
      WellFormedRows(rows[..m]) && WellFormedRows(rows[m..]) &&
      Arrivals(Schedule(rows, tokens), docName) == Arrivals(Interleave(rows[..m], tokens[..m]), docName)
        + Arrivals(DrainRows(rows[m..]), docName) + Arrivals(TokenReads(tokens[m..]), docName) &&
      Readable(Schedule(rows, tokens), docName)
  {
    var m := if |rows| < |tokens| then |rows| else |tokens|;
    assert WellFormedRows(rows[..m]) && WellFormedRows(rows[m..]) by {
      forall i | 0 <= i < |rows[m..]| ensures |rows[m..][i]| > CHN_IDX {
        assert rows[m..][i] == rows[m + i];
      }
    }
    ScheduleShape(rows, tokens);
    var a, b, c := Interleave(rows[..m], tokens[..m]), DrainRows(rows[m..]), TokenReads(tokens[m..]);
    ArrivalsAppend(a + b, c, docName);
    ArrivalsAppend(a, b, docName);
    InterleaveArrivals(rows[..m], tokens[..m], docName, k, w);
    DrainArrivals(rows[m..], docName, k, w);
    TokenArrivals(tokens[m..], docName, k);
    ReadableAppend(a, b, docName);
    ReadableAppend(a + b, c, docName);
  }

  lemma NounInSplit(tokens: seq<string>, m: nat, k: string)
    requires m <= |tokens|
    ensures NounIn(tokens, k) <==> NounIn(tokens[..m], k) || NounIn(tokens[m..], k)
  {
    if NounIn(tokens, k) {
      var i :| 0 <= i < |tokens| && TokenKey(tokens[i]) == Some(k);
      if i < m {
        assert tokens[..m][i] == tokens[i];
      } else {
        assert tokens[m..][i - m] == tokens[i];
      }
    }
    if NounIn(tokens[..m], k) {
      var i :| 0 <= i < m && TokenKey(tokens[..m][i]) == Some(k);
      assert tokens[i] == tokens[..m][i];
    }
    if NounIn(tokens[m..], k) {
      var i :| 0 <= i < |tokens[m..]| && TokenKey(tokens[m..][i]) == Some(k);
      assert tokens[m + i] == tokens[m..][i];
    }
  }

  lemma PipelinedEntrySplit(rows: seq<seq<string>>, tokens: seq<string>, m: nat, k: string, w: string)
    requires m == if |rows| < |tokens| then |rows| else |tokens|
    ensures PipelinedEntry(rows, tokens, k, w) <==> RowGives(rows[..m], k, w, true) || RowGives(rows[m..], k, w, false)
  {
    if PipelinedEntry(rows, tokens, k, w) {
      PipelinedEntryPhase(rows, tokens, m, k, w);
    }
    if RowGives(rows[..m], k, w, true) {
      var i :| 0 <= i < |rows[..m]| && |rows[..m][i]| > CHN_IDX && rows[..m][i][CHN_IDX] == k && w == AltGloss(rows[..m][i]);
      assert rows[i] == rows[..m][i];
    }
    if RowGives(rows[m..], k, w, false) {
      var i :| 0 <= i < |rows[m..]| && |rows[m..][i]| > CHN_IDX && rows[m..][i][CHN_IDX] == k && w == rows[m..][i][GLOSS_IDX];
      assert rows[m + i] == rows[m..][i];
    }
  }

  /** A row giving the entry lies in the alternating phase or in the drain. */
  lemma PipelinedEntryPhase(rows: seq<seq<string>>, tokens: seq<string>, m: nat, k: string, w: string)
    requires m == if |rows| < |tokens| then |rows| else |tokens|
    requires PipelinedEntry(rows, tokens, k, w)
    ensures RowGives(rows[..m], k, w, true) || RowGives(rows[m..], k, w, false)
  {
    var i :| 0 <= i < |rows| && |rows[i]| > CHN_IDX && rows[i][CHN_IDX] == k &&
      w == (if i < |tokens| then AltGloss(rows[i]) else rows[i][GLOSS_IDX]);
    if i < m {
      assert rows[..m][i] == rows[i];
    } else {
      assert rows[m..][i - m] == rows[i];
    }
  }

  /**
   * `simpleHashJoin` on well-formed rows, from empty tables and with a
   * non-empty document name: it succeeds, and writes the line for (`w`,
   * `k`) once per noun token `k` when some row gives the entry (`k`, `w`)
   * by its column 0, and never otherwise.
   */
  lemma SimpleJoinCounts(rows: seq<seq<string>>, tokens: seq<string>, docName: string, k: string, w: string)
    requires |docName| != 0 && WellFormedRows(rows)
    ensures Apply(Empty, SimpleSchedule(rows, tokens), docName).1
    ensures Apply(Empty, SimpleSchedule(rows, tokens), docName).0.out[Match(w, k)] ==
      if RowGives(rows, k, w, false) then NounCount(tokens, k) else 0
  {
    var a, b := PlainRows(rows), TokenReads(tokens);
    PlainArrivals(rows, docName, k, w);
    TokenArrivals(tokens, docName, k);
    ReadableAppend(a, b, docName);
    ArrivalsAppend(a, b, docName);
    ApplyRuns(Empty, a + b, docName);
    var loads, terms := Arrivals(a, docName), Arrivals(b, docName);
    assert forall i :: 0 <= i < |loads| ==> loads[i].Load? by {
      forall i | 0 <= i < |loads| ensures loads[i].Load? {
        assert loads[i] in loads;
      }
    }
    assert forall i :: 0 <= i < |terms| ==> terms[i].Term? by {
      forall i | 0 <= i < |terms| ensures terms[i].Term? {
        assert terms[i] in terms;
      }
    }
    LoadThenProbe(loads, terms, k, w);
  }

  lemma {:induction false} NounCountPositive(tokens: seq<string>, k: string)
    ensures NounCount(tokens, k) > 0 <==> NounIn(tokens, k)
    decreases |tokens|
  {
    if tokens != [] {
      NounCountPositive(tokens[1..], k);
      NounInCons(tokens, k);
    }
  }

  /**
   * When no row has a template, the two joins write the same lines (the
   * simple join repeating a line once per repeated noun token).
   */
  lemma JoinsAgree(rows: seq<seq<string>>, tokens: seq<string>, docName: string, k: string, w: string)
    requires |docName| != 0 && WellFormedRows(rows)
    requires forall i :: 0 <= i < |rows| ==> rows[i][TEMPLATE_IDX] == ""
    ensures Match(w, k) in Apply(Empty, Schedule(rows, tokens), docName).0.out <==>
      Match(w, k) in Apply(Empty, SimpleSchedule(rows, tokens), docName).0.out
  {
    DoubleJoinFinds(rows, tokens, docName, k, w);
    SimpleJoinCounts(rows, tokens, docName, k, w);
    NounCountPositive(tokens, k);
    assert PipelinedEntry(rows, tokens, k, w) <==> RowGives(rows, k, w, false) by {
      if PipelinedEntry(rows, tokens, k, w) {
        var i :| 0 <= i < |rows| && |rows[i]| > CHN_IDX && rows[i][CHN_IDX] == k &&
          w == (if i < |tokens| then AltGloss(rows[i]) else rows[i][GLOSS_IDX]);
        assert rows[i][CHN_IDX] == k && w == rows[i][GLOSS_IDX];
      }
      if RowGives(rows, k, w, false) {
        var i :| 0 <= i < |rows| && |rows[i]| > CHN_IDX && rows[i][CHN_IDX] == k && w == rows[i][GLOSS_IDX];
        assert w == (if i < |tokens| then AltGloss(rows[i]) else rows[i][GLOSS_IDX]);
      }
    }
  }

  // ----- Loading with a key-length histogram -----

  /** Every row has a term column and a term shorter than `FREQ_CAP`. */
  ghost predicate Countable(rows: seq<seq<string>>)
  {
    forall i :: 0 <= i < |rows| ==> |rows[i]| > CHN_IDX && |rows[i][CHN_IDX]| < FREQ_CAP
  }

  /**
   * The dictionary after `loadDict` reads `rows`, and whether it read them
   * all: a row without a term column throws before its put, a term of
   * `FREQ_CAP` characters or more throws after it.
   */
  function LoadCounted(d: Dict, rows: seq<seq<string>>): (Dict, bool)
    decreases |rows|
  {
    if rows == [] then (d, true)
    else if |rows[0]| <= CHN_IDX then (d, false)
    else
      var d' := Put(d, rows[0][CHN_IDX], rows[0][GLOSS_IDX]);
      if |rows[0][CHN_IDX]| >= FREQ_CAP then (d', false) else LoadCounted(d', rows[1..])
  }

  /** `loadDict` reads every row exactly when every term fits the histogram. */
  lemma {:induction false} LoadCountedOk(d: Dict, rows: seq<seq<string>>)
    ensures LoadCounted(d, rows).1 <==> Countable(rows)
    decreases |rows|
  {
    if rows != [] && |rows[0]| > CHN_IDX && |rows[0][CHN_IDX]| < FREQ_CAP {
      LoadCountedOk(Put(d, rows[0][CHN_IDX], rows[0][GLOSS_IDX]), rows[1..]);
      assert Countable(rows) <==> Countable(rows[1..]) by {
        if Countable(rows[1..]) {
          forall i | 0 <= i < |rows| ensures |rows[i]| > CHN_IDX && |rows[i][CHN_IDX]| < FREQ_CAP {
            if i > 0 {
              assert rows[i] == rows[1..][i - 1];
            }
          }
        }
      }
    }
  }

  /** The rows before the last of countable rows are countable. */
  lemma CountablePrefix(rows: seq<seq<string>>)
    requires Countable(rows) && rows != []
    ensures Countable(rows[..|rows| - 1])
  {
    var p := rows[..|rows| - 1];
    forall i | 0 <= i < |p| ensures |p[i]| > CHN_IDX && |p[i][CHN_IDX]| < FREQ_CAP {
      assert p[i] == rows[i];
    }
  }

  /** The histogram cells after the rows of `rows`: cell `n` counts the terms of length `n`. */
  function Freq(rows: seq<seq<string>>): (f: seq<int>)
    requires Countable(rows)
    ensures |f| == FREQ_CAP
    decreases |rows|
  {
    if rows == [] then seq(FREQ_CAP, _ => 0)
    else
      var p := rows[..|rows| - 1];
      CountablePrefix(rows);
      var n := |rows[|rows| - 1][CHN_IDX]|;
      Freq(p)[n := Freq(p)[n] + 1]
  }

  /** The rows of `rows` whose term has length `n`. */
  ghost function RowsOfLength(rows: seq<seq<string>>, n: int): set<int>
  {
    set i | 0 <= i < |rows| && |rows[i]| > CHN_IDX && |rows[i][CHN_IDX]| == n
  }

  /** Histogram cell `n` holds the number of rows whose term has length `n`. */
  lemma {:induction false} FreqCounts(rows: seq<seq<string>>, n: int)
    requires Countable(rows) && 0 <= n < FREQ_CAP
    ensures Freq(rows)[n] == |RowsOfLength(rows, n)|
    decreases |rows|
  {
    if rows != [] {
      var p := rows[..|rows| - 1];
      var last := |rows| - 1;
      CountablePrefix(rows);
      FreqCounts(p, n);
      RowsOfLengthSnoc(rows, n);
    }
  }

  /** The rows of a given term length, split at the last row. */
  lemma RowsOfLengthSnoc(rows: seq<seq<string>>, n: int)
    requires rows != [] && |rows[|rows| - 1]| > CHN_IDX
    ensures var last := |rows| - 1;
      RowsOfLength(rows, n) == RowsOfLength(rows[..last], n) + (if |rows[last][CHN_IDX]| == n then {last} else {}) &&
      last !in RowsOfLength(rows[..last], n)
  {
    var p, last := rows[..|rows| - 1], |rows| - 1;
    forall i | i in RowsOfLength(rows, n) && i < last ensures i in RowsOfLength(p, n) {
      assert p[i] == rows[i];
    }
    forall i | i in RowsOfLength(p, n) ensures i in RowsOfLength(rows, n) {
      assert p[i] == rows[i];
    }
  }

  /** The sum of the cells of `f`. */
  function Sum(f: seq<int>): int
  {
    if f == [] then 0 else f[0] + Sum(f[1..])
  }

  lemma {:induction false} SumBump(f: seq<int>, n: int)
    requires 0 <= n < |f|
    ensures Sum(f[n := f[n] + 1]) == Sum(f) + 1
    decreases |f|
  {
    if n > 0 {
      SumBump(f[1..], n - 1);
      assert f[n := f[n] + 1][1..] == f[1..][n - 1 := f[1..][n - 1] + 1];
    }
  }

  lemma {:induction false} SumZeros(k: nat)
    ensures Sum(seq(k, _ => 0)) == 0
  {
    if k > 0 {
      assert seq(k, _ => 0)[1..] == seq(k - 1, _ => 0);
      SumZeros(k - 1);
    }
  }

  /** Every row loaded is counted once: the histogram cells sum to the number of rows. */
  lemma {:induction false} FreqTotal(rows: seq<seq<string>>)
    requires Countable(rows)
    ensures Sum(Freq(rows)) == |rows|
    decreases |rows|
  {
    if rows == [] {
      SumZeros(FREQ_CAP);
    } else {
      var p := rows[..|rows| - 1];
      CountablePrefix(rows);
      FreqTotal(p);
      SumBump(Freq(p), |rows[|rows| - 1][CHN_IDX]|);
    }
  }

  class HashJoin {
    /** The dictionary `HashMultimap`. */
    var dict: Dict
    /** The document `Hashtable`: term -> the word stored with it. */
    var doc: map<string, string>
    /** The lines written to the current output, in order. */
    var out: seq<Match>

    /** The tables and the lines written, counted. */
    ghost function Current(): Tables
      reads this
    {
      Tables(dict, doc, multiset(out))
    }

    /** `hashJoin()`: both tables empty. */
    constructor()
      ensures dict == map[] && doc == map[] && out == []
    {
      dict := map[];
      doc := map[];
      out := [];
    }

    /**
     * `probeAndInsert(key, word, option)`: option 0 probes the dictionary
     * with a document term, writing one line per gloss in the order the set
     * lists them, then stores the term; any other option probes the document
     * with a dictionary entry, then puts it. Lines are only ever appended.
     */
    method ProbeAndInsert(key: string, word: string, option: int)
      modifies this
      ensures Current() == if option == 0 then ProbeDictionary(old(Current()), key, word) else ProbeDocument(old(Current()), key, word)
      ensures old(out) <= out
    {
      if option == 0 {
        var lines := GlossLines(key);
        out := out + lines;
        doc := doc[key := word];
      } else {
        if key in doc {
          out := out + [Match(word, key)];
        }
        dict := Put(dict, key, word);
      }
    }

    /** The loop of option 0: one line for each gloss of `key`, in the order the set lists them. */
    method GlossLines(key: string) returns (lines: seq<Match>)
      ensures multiset(lines) == GlossMatches(Get(dict, key), key)
    {
      var engWords := Get(dict, key);
      var rest := engWords;
      ghost var written: set<string> := {};
      lines := [];
      while rest != {}
        invariant rest + written == engWords && rest !! written
        invariant multiset(lines) == GlossMatches(written, key)
        decreases |rest|
      {
        var w :| w in rest;
        GlossMatchesAdd(written, w, key);
        lines := lines + [Match(w, key)];
        rest := rest - {w};
        written := written + {w};
      }
      assert written == engWords;
    }

    /** One read of a join, with the effect it has on the tables; a failing row is reported and changes nothing. */
    method ReadOne(r: Read, docName: string) returns (ok: bool)
      modifies this
      ensures ok == Arrive(r, docName).Ok?
      ensures Current() == AfterRead(old(Current()), r, docName)
    {
      if r.Token? {
        ReadToken(r.token, docName);
        ok := true;
      } else {
        ok := ReadRow(r);
      }
    }

    /** A dictionary row: probe the document and insert, or in the simple join only insert. */
    method ReadRow(r: Read) returns (ok: bool)
      requires !r.Token?
      modifies this
      ensures ok == Arrive(r, "").Ok?
      ensures Current() == AfterRead(old(Current()), r, "")
    {
      var dictLine := r.row;
      if |dictLine| <= CHN_IDX {
        return false;
      }
      if r.PlainRow? {
        assert Arrive(r, "") == Ok(Some(Load(dictLine[CHN_IDX], dictLine[GLOSS_IDX])));
        dict := Put(dict, dictLine[CHN_IDX], dictLine[GLOSS_IDX]);
      } else if r.DrainRow? || |dictLine[TEMPLATE_IDX]| == 0 {
        assert Arrive(r, "") == Ok(Some(Entry(dictLine[CHN_IDX], dictLine[GLOSS_IDX])));
        ProbeAndInsert(dictLine[CHN_IDX], dictLine[GLOSS_IDX], 1);
      } else {
        assert Arrive(r, "") == Ok(Some(Entry(dictLine[CHN_IDX], Replace(dictLine[TEMPLATE_IDX], '~', dictLine[GLOSS_IDX]))));
        ProbeAndInsert(dictLine[CHN_IDX], Replace(dictLine[TEMPLATE_IDX], '~', dictLine[GLOSS_IDX]), 1);
      }
      ok := true;
    }

    /** A document token: a noun is probed against the dictionary by its key, unless the file name is empty. */
    method ReadToken(docWord: string, docName: string)
      modifies this
      ensures Current() == AfterRead(old(Current()), Token(docWord), docName)
    {
      if HasSubstring(docWord, "/n") {
        SlashInNominal(docWord);
        var key := docWord[..IndexOf(docWord, '/')];
        if |docName| != 0 {
          ProbeAndInsert(key, key, 0);
        }
      }
    }

    /**
     * `doublePipelinedHashJoin(dict, doc, out)`: a fresh output; rows and
     * tokens read in turn, starting with a row, while a token remains and,
     * on a row's turn, a row remains; then the remaining rows, then the
     * remaining tokens. A row without a term column stops the join.
     */
    method DoublePipelinedHashJoin(docName: string, rows: seq<seq<string>>, tokens: seq<string>) returns (ok: bool)
      modifies this
      ensures (Current(), ok) == Apply(Tables(old(dict), old(doc), multiset{}), Schedule(rows, tokens), docName)
    {
      out := [];
      ghost var start := Current();
      var readFromDict := true;
      var ri, ti := 0, 0;
      while ti < |tokens|
        invariant 0 <= ri <= |rows| && 0 <= ti <= |tokens|
        invariant Apply(start, Schedule(rows, tokens), docName) == Apply(Current(), Pending(rows[ri..], tokens[ti..], readFromDict), docName)
        decreases |rows| - ri + |tokens| - ti
      {
        ghost var rest := Pending(rows[ri..], tokens[ti..], readFromDict);
        if readFromDict {
          if ri == |rows| {
            break;
          }
          assert rows[ri..][1..] == rows[ri + 1..];
          ApplyCons(Current(), AltRow(rows[ri]), Pending(rows[ri + 1..], tokens[ti..], false), docName);
          ok := ReadOne(AltRow(rows[ri]), docName);
          if !ok {
            return;
          }
          ri := ri + 1;
          readFromDict := false;
        } else {
          assert tokens[ti..][1..] == tokens[ti + 1..];
          ApplyCons(Current(), Token(tokens[ti]), Pending(rows[ri..], tokens[ti + 1..], true), docName);
          ok := ReadOne(Token(tokens[ti]), docName);
          ti := ti + 1;
          readFromDict := true;
        }
      }
      assert Pending(rows[ri..], tokens[ti..], readFromDict) == DrainRows(rows[ri..]) + TokenReads(tokens[ti..]);
      ok := DrainAndProbe(rows[ri..], tokens[ti..], docName);
    }

    /** The drains of `doublePipelinedHashJoin`: every remaining row, glossed with column 0, then every remaining token. */
    method DrainAndProbe(rows: seq<seq<string>>, tokens: seq<string>, docName: string) returns (ok: bool)
      modifies this
      ensures (Current(), ok) == Apply(old(Current()), DrainRows(rows) + TokenReads(tokens), docName)
    {
      var ri := 0;
      while ri < |rows|
        invariant 0 <= ri <= |rows|
        invariant Apply(old(Current()), DrainRows(rows) + TokenReads(tokens), docName)
          == Apply(Current(), DrainRows(rows[ri..]) + TokenReads(tokens), docName)
      {
        assert DrainRows(rows[ri..]) + TokenReads(tokens) == [DrainRow(rows[ri])] + (DrainRows(rows[ri + 1..]) + TokenReads(tokens));
        ApplyCons(Current(), DrainRow(rows[ri]), DrainRows(rows[ri + 1..]) + TokenReads(tokens), docName);
        ok := ReadOne(DrainRow(rows[ri]), docName);
        if !ok {
          return;
        }
        ri := ri + 1;
      }
      assert DrainRows(rows[ri..]) + TokenReads(tokens) == TokenReads(tokens);
      ok := ProbeTokens(tokens, docName);
    }

    /** The token loop shared by both joins: every token read in order. */
    method ProbeTokens(tokens: seq<string>, docName: string) returns (ok: bool)
      modifies this
      ensures ok && (Current(), ok) == Apply(old(Current()), TokenReads(tokens), docName)
    {
      var ti := 0;
      while ti < |tokens|
        invariant 0 <= ti <= |tokens|
        invariant Apply(old(Current()), TokenReads(tokens), docName) == Apply(Current(), TokenReads(tokens[ti..]), docName)
      {
        assert TokenReads(tokens[ti..]) == [Token(tokens[ti])] + TokenReads(tokens[ti + 1..]);
        ApplyCons(Current(), Token(tokens[ti]), TokenReads(tokens[ti + 1..]), docName);
        ok := ReadOne(Token(tokens[ti]), docName);
        ti := ti + 1;
      }
      assert TokenReads(tokens[ti..]) == [];
      ok := true;
    }

    /**
     * `simpleHashJoin(dict, doc, out)`: a fresh output; every row put with
     * its column 0 as the gloss, without probing; then every token probed.
     */
    method SimpleHashJoin(docName: string, rows: seq<seq<string>>, tokens: seq<string>) returns (ok: bool)
      modifies this
      ensures (Current(), ok) == Apply(Tables(old(dict), old(doc), multiset{}), SimpleSchedule(rows, tokens), docName)
    {
      out := [];
      ghost var start := Current();
      var ri := 0;
      while ri < |rows|
        invariant 0 <= ri <= |rows|
        invariant Apply(start, SimpleSchedule(rows, tokens), docName) == Apply(Current(), PlainRows(rows[ri..]) + TokenReads(tokens), docName)
      {
        assert PlainRows(rows[ri..]) + TokenReads(tokens) == [PlainRow(rows[ri])] + (PlainRows(rows[ri + 1..]) + TokenReads(tokens));
        ApplyCons(Current(), PlainRow(rows[ri]), PlainRows(rows[ri + 1..]) + TokenReads(tokens), docName);
        ok := ReadOne(PlainRow(rows[ri]), docName);
        if !ok {
          return;
        }
        ri := ri + 1;
      }
      assert PlainRows(rows[ri..]) + TokenReads(tokens) == TokenReads(tokens);
      ok := ProbeTokens(tokens, docName);
    }

    /**
     * `loadDict(dict)`: puts every row with its column 0 as the gloss and
     * counts the terms by length in a `FREQ_CAP`-cell array, which it hands
     * to the histogram printer.
     */
    method LoadDict(rows: seq<seq<string>>) returns (r: Result<seq<int>>)
      modifies this
      ensures dict == LoadCounted(old(dict), rows).0
      ensures r.Ok? == LoadCounted(old(dict), rows).1
      ensures r.Err? ==> r.error == ArrayIndexOutOfBounds
      ensures r.Ok? ==> Countable(rows) && r.value == Freq(rows)
    {
      var freq := new int[FREQ_CAP](_ => 0);
      var i := 0;
      assert rows[..0] == [];
      while i < |rows|
        invariant 0 <= i <= |rows|
        invariant Countable(rows[..i])
        invariant freq[..] == Freq(rows[..i])
        invariant LoadCounted(dict, rows[i..]) == LoadCounted(old(dict), rows)
      {
        var dictLine := rows[i];
        assert rows[i..][0] == dictLine && rows[i..][1..] == rows[i + 1..];
        if |dictLine| <= CHN_IDX {
          return Err(ArrayIndexOutOfBounds);
        }
        dict := Put(dict, dictLine[CHN_IDX], dictLine[GLOSS_IDX]);
        var n := |dictLine[CHN_IDX]|;
        if n >= FREQ_CAP {
          return Err(ArrayIndexOutOfBounds);
        }
        ghost var upto := rows[..i + 1];
        assert upto[..i] == rows[..i] && upto[i] == dictLine;
        assert Countable(upto) by {
          forall j | 0 <= j < i + 1 ensures |upto[j]| > CHN_IDX && |upto[j][CHN_IDX]| < FREQ_CAP {
            if j < i {
              assert upto[j] == rows[..i][j];
            }
          }
        }
        freq[n] := freq[n] + 1;
        i := i + 1;
      }
      assert rows[..i] == rows;
      LoadCountedOk(old(dict), rows);
      r := Ok(freq[..]);
    }
  }
}
