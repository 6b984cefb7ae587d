/**
 * `Multimap`: a `Hashtable` from a Chinese term to the `LinkedList` of its
 * English words, listed in the order they were put. The same word put twice
 * for a term is listed twice; a term never put has no list at all.
 */
module Multimaps {
  import opened Wrappers

  /** The default initial capacity. */
  const SIZE := 2003

  /** Term -> its list of words. */
  type Table = map<string, seq<string>>

  /** `table.get(key)`: the list of `key`, or null for a term never put. */
  function Lookup(t: Table, key: string): Option<seq<string>>
  {
    if key in t then Some(t[key]) else None
  }

  /** The words listed for `key`, none for a term never put. */
  function Words(t: Table, key: string): seq<string>
  {
    if key in t then t[key] else []
  }

  /** Every listed term has at least one word: a list is only created to hold one. */
  ghost predicate NoEmptyList(t: Table)
  {
    forall k :: k in t ==> t[k] != []
  }

  /**
   * One successful `put`: `word` goes to the end of the list of `key`, which
   * is created when missing; every other term keeps its list.
   */
  function Append(t: Table, key: string, word: string): (r: Table)
    ensures Lookup(r, key) == Some(Words(t, key) + [word])
    ensures forall k :: k != key ==> Lookup(r, k) == Lookup(t, k)
    ensures NoEmptyList(t) ==> NoEmptyList(r)
  {
    t[key := Words(t, key) + [word]]
  }

  /** The table after the (term, word) pairs of `puts` are put in order. */
  function PutAll(t: Table, puts: seq<(string, string)>): Table
    decreases |puts|
  {
    if puts == [] then t else PutAll(Append(t, puts[0].0, puts[0].1), puts[1..])
  }

  /** The words of the pairs of `puts` whose term is `key`, in order. */
  function WordsFor(puts: seq<(string, string)>, key: string): seq<string>
    decreases |puts|
  {
    if puts == [] then []
    else (if puts[0].0 == key then [puts[0].1] else []) + WordsFor(puts[1..], key)
  }

  /**
   * After a sequence of puts, each term lists its earlier words followed by
   * the words put for it, in the order they were put.
   */
  lemma {:induction false} PutAllWords(t: Table, puts: seq<(string, string)>, key: string)
    ensures Words(PutAll(t, puts), key) == Words(t, key) + WordsFor(puts, key)
    decreases |puts|
  {
    if puts != [] {
      var t' := Append(t, puts[0].0, puts[0].1);
      PutAllWords(t', puts[1..], key);
      assert Words(t', key) == Words(t, key) + (if puts[0].0 == key then [puts[0].1] else []);
    }
  }

  /** After a sequence of puts, a term has a list exactly when it had one or was put. */
  lemma {:induction false} PutAllKeys(t: Table, puts: seq<(string, string)>, key: string)
    ensures key in PutAll(t, puts) <==> key in t || exists i :: 0 <= i < |puts| && puts[i].0 == key
    decreases |puts|
  {
    if puts != [] {
      var t' := Append(t, puts[0].0, puts[0].1);
      PutAllKeys(t', puts[1..], key);
      assert key in t' <==> key in t || puts[0].0 == key;
      if key in PutAll(t, puts) && key !in t && puts[0].0 != key {
        var i :| 0 <= i < |puts[1..]| && puts[1..][i].0 == key;
        assert puts[i + 1].0 == key;
      }
      if exists i :: 0 <= i < |puts| && puts[i].0 == key {
        var i :| 0 <= i < |puts| && puts[i].0 == key;
        if i > 0 {
          assert puts[1..][i - 1].0 == key;
        }
      }
    }
  }

  /** Duplicates are kept: a word is listed for a term as many times as the pair was put. */
  lemma {:induction false} WordsForCounts(puts: seq<(string, string)>, key: string, word: string)
    ensures multiset(WordsFor(puts, key))[word] == multiset(puts)[(key, word)]
    decreases |puts|
  {
    if puts != [] {
      WordsForCounts(puts[1..], key, word);
      assert puts == [puts[0]] + puts[1..];
      assert multiset(puts) == multiset{puts[0]} + multiset(puts[1..]);
      var head := if puts[0].0 == key then [puts[0].1] else [];
      assert multiset(WordsFor(puts, key)) == multiset(head) + multiset(WordsFor(puts[1..], key));
    }
  }

  /** A sequence of puts on a table without empty lists leaves none. */
  lemma {:induction false} PutAllNoEmptyList(t: Table, puts: seq<(string, string)>)
    requires NoEmptyList(t)
    ensures NoEmptyList(PutAll(t, puts))
    decreases |puts|
  {
    if puts != [] {
      PutAllNoEmptyList(Append(t, puts[0].0, puts[0].1), puts[1..]);
    }
  }

  class Multimap {
    /** The `Hashtable` of lists. */
    var table: Table

    ghost predicate Valid()
      reads this
    {
      NoEmptyList(table)
    }

    /** `Multimap()`: an empty table of the default capacity. */
    constructor()
      ensures Valid() && table == map[]
    {
      table := map[];
    }

    /** `Multimap(capacity)`: an empty table, whatever the capacity. */
    constructor WithCapacity(capacity: int)
      requires capacity >= 0
      ensures Valid() && table == map[]
    {
      table := map[];
    }

    /**
     * `put(key, word)`: a null term or word throws before anything changes;
     * otherwise `word` goes to the end of the list of `key`.
     */
    method Put(key: Option<string>, word: Option<string>) returns (r: Result<()>)
      requires Valid()
      modifies this
      ensures Valid()
      ensures r.Err? <==> key.None? || word.None?
      ensures r.Err? ==> r.error == NullPointer && table == old(table)
      ensures r.Ok? ==> table == Append(old(table), key.value, word.value)
    {
      if key.None? || word.None? {
        return Err(NullPointer);
      }
      var tuple := Lookup(table, key.value);
      if tuple.None? {
        tuple := Some([]);
        table := table[key.value := tuple.value];
      }
      table := table[key.value := tuple.value + [word.value]];
      r := Ok(());
    }

    /** `get(key)`: the list of `key`, null for a term never put; a null term throws. */
    method Get(key: Option<string>) returns (r: Result<Option<seq<string>>>)
      requires Valid()
      ensures key.None? <==> r.Err?
      ensures r.Err? ==> r.error == NullPointer
      ensures r.Ok? ==> (r.value.None? <==> key.value !in table)
      ensures r.Ok? && r.value.Some? ==> r.value.value == table[key.value] && r.value.value != []
    {
      if key.None? {
        return Err(NullPointer);
      }
      r := Ok(Lookup(table, key.value));
    }
  }
}
