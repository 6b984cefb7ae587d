/**
 * The tagger's dictionary: a Guava `HashMultimap<String, String>` from a
 * Chinese term to its set of English glosses, and the per-row transform
 * `docTagger.loadDict` applies before putting a CSV row into it.
 */
module Dictionaries {
  import opened Wrappers
  import opened Strings

  /** Term -> set of glosses. A term that was never put maps to no glosses. */
  type Dict = map<string, set<string>>

  /** `dict.get(key)`: the glosses of `key`, empty for a term never put. */
  function Get(d: Dict, key: string): set<string>
  {
    if key in d then d[key] else {}
  }

  /** The set has a member (the negation of `isEmpty()`). */
  predicate HasGlosses(g: set<string>)
  {
    exists x :: x in g
  }

  /** `dict.containsKey(key)`: a multimap holds a key only while it has a value. */
  predicate ContainsKey(d: Dict, key: string)
  {
    HasGlosses(Get(d, key))
  }

  /** `dict.put(key, gloss)`: adds `gloss` to the set of `key`, leaving every other key alone. */
  function Put(d: Dict, key: string, gloss: string): (r: Dict)
    ensures Get(r, key) == Get(d, key) + {gloss}
    ensures forall k :: k != key ==> Get(r, k) == Get(d, k)
    ensures ContainsKey(r, key)
  {
    d[key := Get(d, key) + {gloss}]
  }

  /**
   * `matchWords.toArray()[0]`: the member a hash set happens to list first.
   * The order is a property of the set's hashing, so it is a fixed but
   * unspecified function of the set.
   */
  type Chooser = set<string> -> string

  /** The chooser always answers a member of a non-empty set. */
  ghost predicate IsChooser(pick: Chooser)
  {
    forall g: set<string>, x: string {:trigger x in g} :: x in g ==> pick(g) in g
  }

  /** Column indices of a dictionary CSV row. */
  const GLOSS_IDX := 0
  const TEMPLATE_IDX := 1
  const CHN_IDX := 2

  /**
   * The gloss of a row before its spaces are replaced: the template of
   * column 1 with every `~` replaced by column 0 when the template holds a
   * `~`, else column 0.
   */
  function RowGloss(row: seq<string>): (g: string)
    requires |row| > CHN_IDX
    ensures '~' !in row[TEMPLATE_IDX] ==> g == row[GLOSS_IDX]
  {
    if '~' in row[TEMPLATE_IDX] then Replace(row[TEMPLATE_IDX], '~', row[GLOSS_IDX]) else row[GLOSS_IDX]
  }

  /** A template holding one `~` between `a` and `b` gives `a`, column 0, then `b`. */
  lemma RowGlossTemplate(row: seq<string>, a: string, b: string)
    requires |row| > CHN_IDX && row[TEMPLATE_IDX] == a + "~" + b && '~' !in a && '~' !in b
    ensures RowGloss(row) == a + row[GLOSS_IDX] + b
  {
    assert '~' in row[TEMPLATE_IDX] by {
      assert row[TEMPLATE_IDX][|a|] == '~';
    }
    ReplaceAround(a, b, '~', row[GLOSS_IDX]);
  }

  /**
   * The (term, gloss) pair loaded from one CSV row: the term is column 2 and
   * the gloss is `RowGloss` with each space turned into a dash, every other
   * character kept in place. A row with fewer than three columns throws.
   */
  function RowEntry(row: seq<string>): (r: Result<(string, string)>)
    ensures r.Ok? <==> |row| > CHN_IDX
    ensures r.Ok? ==> r.value.0 == row[CHN_IDX] && ' ' !in r.value.1
    ensures r.Ok? ==> |r.value.1| == |RowGloss(row)|
    ensures r.Ok? ==> forall i :: 0 <= i < |r.value.1| ==>
      r.value.1[i] == (if RowGloss(row)[i] == ' ' then '-' else RowGloss(row)[i])
    ensures r.Ok? && '~' !in row[TEMPLATE_IDX] && ' ' !in row[GLOSS_IDX] ==> r.value.1 == row[GLOSS_IDX]
  {
    if |row| <= CHN_IDX then
      Err(ArrayIndexOutOfBounds)
    else
      Ok((row[CHN_IDX], Replace(RowGloss(row), ' ', "-")))
  }

  /**
   * The dictionary after `loadDict` reads `rows` in order, and whether it
   * read them all: a short row stops the load with the earlier rows put.
   */
  function LoadRows(d: Dict, rows: seq<seq<string>>): (Dict, bool)
    decreases |rows|
  {
    if rows == [] then (d, true)
    else
      match RowEntry(rows[0])
      case Err(_) => (d, false)
      case Ok(entry) => LoadRows(Put(d, entry.0, entry.1), rows[1..])
  }

  /** No gloss of the dictionary holds a space. */
  ghost predicate NoSpacedGloss(d: Dict)
  {
    forall k, g :: g in Get(d, k) ==> ' ' !in g
  }

  /** Loading keeps every gloss free of spaces. */
  lemma {:induction false} LoadKeepsGlossesUnspaced(d: Dict, rows: seq<seq<string>>)
    requires NoSpacedGloss(d)
    ensures NoSpacedGloss(LoadRows(d, rows).0)
    decreases |rows|
  {
    if rows != [] {
      match RowEntry(rows[0])
      case Err(_) =>
      case Ok(entry) =>
        var d' := Put(d, entry.0, entry.1);
        assert NoSpacedGloss(d') by {
          forall k, g | g in Get(d', k) ensures ' ' !in g {
            if k != entry.0 {
              assert g in Get(d, k);
            }
          }
        }
        LoadKeepsGlossesUnspaced(d', rows[1..]);
    }
  }

  /**
   * A load of well-formed rows succeeds, and the loaded dictionary holds
   * exactly the earlier glosses plus one entry per row.
   */
  lemma {:induction false} LoadHoldsEveryRow(d: Dict, rows: seq<seq<string>>)
    requires forall i :: 0 <= i < |rows| ==> |rows[i]| > CHN_IDX
    ensures LoadRows(d, rows).1
    ensures forall i :: 0 <= i < |rows| ==>
      RowEntry(rows[i]).value.1 in Get(LoadRows(d, rows).0, RowEntry(rows[i]).value.0)
    ensures forall k, g :: g in Get(LoadRows(d, rows).0, k) ==>
      g in Get(d, k) || exists i :: 0 <= i < |rows| && RowEntry(rows[i]).value == (k, g)
    decreases |rows|
  {
    if rows != [] {
      var entry := RowEntry(rows[0]).value;
      var d' := Put(d, entry.0, entry.1);
      var rest := rows[1..];
      LoadHoldsEveryRow(d', rest);
      var r := LoadRows(d, rows).0;
      assert r == LoadRows(d', rest).0;
      forall i | 0 <= i < |rows|
        ensures RowEntry(rows[i]).value.1 in Get(r, RowEntry(rows[i]).value.0)
      {
        if i == 0 {
          LoadOnlyGrows(d', rest, entry.0, entry.1);
        } else {
          assert rows[i] == rest[i - 1];
        }
      }
      forall k, g | g in Get(r, k)
        ensures g in Get(d, k) || exists i :: 0 <= i < |rows| && RowEntry(rows[i]).value == (k, g)
      {
        if g !in Get(d', k) {
          var i :| 0 <= i < |rest| && RowEntry(rest[i]).value == (k, g);
          assert rows[i + 1] == rest[i];
        } else if g !in Get(d, k) {
          assert RowEntry(rows[0]).value == (k, g);
        }
      }
    }
  }

  /** Loading never removes a gloss. */
  lemma {:induction false} LoadOnlyGrows(d: Dict, rows: seq<seq<string>>, k: string, g: string)
    requires g in Get(d, k)
    ensures g in Get(LoadRows(d, rows).0, k)
    decreases |rows|
  {
    if rows != [] {
      match RowEntry(rows[0])
      case Err(_) =>
      case Ok(entry) =>
        LoadOnlyGrows(Put(d, entry.0, entry.1), rows[1..], k, g);
    }
  }
}
