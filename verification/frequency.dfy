/**
 The word-frequency table of `process_directory`: a dictionary from word to
 count, updated once per word occurrence with `table.get(word, 0) + 1`.
 */
module Frequency {

  type Table = map<string, nat>

  /** `table.get(word, 0)`. */
  function Get(table: Table, word: string): nat {
    if word in table then table[word] else 0
  }

  /** Every word in the table was counted at least once. */
  predicate Positive(table: Table) {
    forall w :: w in table ==> table[w] >= 1
  }

  /** `table[word] = table.get(word, 0) + 1`: one more occurrence of `word`, nothing else changes. */
  function Bump(table: Table, word: string): (r: Table)
    ensures r.Keys == table.Keys + {word}
    ensures Get(r, word) == Get(table, word) + 1
    ensures forall w :: w != word ==> Get(r, w) == Get(table, w)
  {
    table[word := Get(table, word) + 1]
  }

  /** The table after the loop `for word in words: Bump` starting from `table`. */
  function Tally(table: Table, words: seq<string>): (r: Table)
    ensures table.Keys <= r.Keys
    decreases |words|
  {
    if words == [] then table else Tally(Bump(table, words[0]), words[1..])
  }

  /** The table built from an empty dictionary; it is empty exactly when there are no words. */
  function Frequencies(words: seq<string>): (r: Table)
    ensures r == map[] <==> words == []
  {
    Tally(map[], words)
  }

  /** Reference definition: each word that occurs, with its number of occurrences. */
  function Histogram(words: seq<string>): Table {
    map w | w in words :: multiset(words)[w]
  }

  /** Key-wise sum of two tables; a word absent from one counts 0 there. */
  function Sum(t: Table, u: Table): (r: Table)
    ensures r.Keys == t.Keys + u.Keys
    ensures forall w :: Get(r, w) == Get(t, w) + Get(u, w)
  {
    map w | w in t.Keys + u.Keys :: Get(t, w) + Get(u, w)
  }

  /** Folding over two runs of words one after the other is folding over their concatenation. */
  lemma {:induction false} TallyAppend(table: Table, a: seq<string>, b: seq<string>)
    ensures Tally(table, a + b) == Tally(Tally(table, a), b)
    decreases |a|
  {
    if a != [] {
      assert (a + b)[0] == a[0];
      assert (a + b)[1..] == a[1..] + b;
      TallyAppend(Bump(table, a[0]), a[1..], b);
    } else {
      assert a + b == b;
    }
  }

  /** Folding adds each word's number of occurrences to its count, and adds exactly the words that occur as keys. */
  lemma {:induction false} TallyCounts(table: Table, words: seq<string>)
    ensures forall w :: w in Tally(table, words) <==> w in table || w in words
    ensures forall w :: Get(Tally(table, words), w) == Get(table, w) + multiset(words)[w]
    decreases |words|
  {
    if words != [] {
      var rest := words[1..];
      TallyCounts(Bump(table, words[0]), rest);
      assert words == [words[0]] + rest;
      assert multiset(words) == multiset([words[0]]) + multiset(rest);
      assert forall w :: w in words <==> w == words[0] || w in rest;
    }
  }

  /** Folding never introduces a key with count 0. */
  lemma {:induction false} TallyKeepsPositive(table: Table, words: seq<string>)
    requires Positive(table)
    ensures Positive(Tally(table, words))
    decreases |words|
  {
    if words != [] {
      TallyKeepsPositive(Bump(table, words[0]), words[1..]);
    }
  }

  /**
   The folded table is the histogram of the words: a word is a key exactly
   when it occurs, and its count is its number of occurrences.
   */
  lemma FrequenciesIsHistogram(words: seq<string>)
    ensures Frequencies(words) == Histogram(words)
    ensures forall w :: w in Frequencies(words) <==> w in words
    ensures forall w :: Get(Frequencies(words), w) == multiset(words)[w]
  {
    TallyCounts(map[], words);
    var f := Frequencies(words);
    assert forall w :: w in f ==> f[w] == Get(f, w);
  }

  /** Every count in a folded table is at least 1. */
  lemma FrequenciesPositive(words: seq<string>)
    ensures Positive(Frequencies(words))
  {
    TallyKeepsPositive(map[], words);
  }

  /** Counts add up across concatenated inputs. */
  lemma FrequenciesAdditive(a: seq<string>, b: seq<string>)
    ensures Frequencies(a + b) == Sum(Frequencies(a), Frequencies(b))
  {
    FrequenciesIsHistogram(a);
    FrequenciesIsHistogram(b);
    FrequenciesIsHistogram(a + b);
    assert multiset(a + b) == multiset(a) + multiset(b);
    var l, r := Frequencies(a + b), Sum(Frequencies(a), Frequencies(b));
    assert l.Keys == r.Keys;
    forall w | w in l
      ensures l[w] == r[w]
    {
      assert l[w] == Get(l, w) && r[w] == Get(r, w);
    }
  }

  /** The table does not depend on the order of the words. */
  lemma FrequenciesPermutation(a: seq<string>, b: seq<string>)
    requires multiset(a) == multiset(b)
    ensures Frequencies(a) == Frequencies(b)
  {
    FrequenciesIsHistogram(a);
    FrequenciesIsHistogram(b);
    assert forall w :: w in a <==> w in multiset(a);
    assert forall w :: w in b <==> w in multiset(b);
  }

  /** Resuming the fold from a table adds the new words' table to it. */
  lemma TallyIsSum(table: Table, words: seq<string>)
    ensures Tally(table, words) == Sum(table, Frequencies(words))
  {
    TallyCounts(table, words);
    FrequenciesIsHistogram(words);
    var f := Frequencies(words);
    var l, r := Tally(table, words), Sum(table, f);
    assert r.Keys == table.Keys + f.Keys;
    forall w
      ensures w in l <==> w in r
    {
      assert w in f <==> w in words;
    }
    assert l.Keys == r.Keys;
    forall w | w in l
      ensures l[w] == r[w]
    {
      assert l[w] == Get(l, w) && r[w] == Get(r, w);
    }
  }

  /** Imperative form of the counting loop: one dictionary update per word. */
  method CountWords(table: Table, words: seq<string>) returns (result: Table)
    ensures result == Tally(table, words)
    ensures forall w :: Get(result, w) == Get(table, w) + multiset(words)[w]
  {
    result := table;
    var i := 0;
    while i < |words|
      invariant 0 <= i <= |words|
      invariant Tally(result, words[i..]) == Tally(table, words)
    {
      assert words[i..][0] == words[i] && words[i..][1..] == words[i + 1..];
      result := result[words[i] := Get(result, words[i]) + 1];
      i := i + 1;
    }
    assert words[i..] == [];
    TallyCounts(table, words);
  }

}
