/**
 The language gate and the token filters of `extract_japanese_words`. The
 library capabilities it relies on (the language identifier, the tokenizer,
 the alphabetic-character test and the Japanese stop-word list) are not
 modelled: they are passed in as a `Toolkit`.
 */
module Language {

  /** The external capabilities the word extraction relies on. */
  datatype Toolkit = Toolkit(
    classify: string -> string,      // language code of the best guess for a text
    tokenize: string -> seq<string>, // word tokens of a text, in order
    isAlpha: string -> bool,         // every character of the token is alphabetic
    stopWords: set<string>           // the Japanese stop words
  )

  /** Language code the gate lets through. */
  const Target: string := "ja"

  /** The elements of `s` that `keep` accepts, in their original order (a list comprehension with a condition). */
  function Filter(keep: string -> bool, s: seq<string>): (r: seq<string>)
    ensures |r| <= |s|
    ensures forall x :: x in r <==> x in s && keep(x)
  {
    if s == [] then [] else (if keep(s[0]) then [s[0]] else []) + Filter(keep, s[1..])
  }

  /** `a` is obtained from `b` by deleting elements: an order-preserving subsequence. */
  predicate Subsequence<T(==)>(a: seq<T>, b: seq<T>)
    decreases |b|
  {
    a == [] || (b != [] && ((a[0] == b[0] && Subsequence(a[1..], b[1..])) || Subsequence(a, b[1..])))
  }

  /** Filtering keeps the survivors in order. */
  lemma {:induction false} FilterIsSubsequence(keep: string -> bool, s: seq<string>)
    ensures Subsequence(Filter(keep, s), s)
    decreases |s|
  {
    if s != [] {
      FilterIsSubsequence(keep, s[1..]);
      var r := Filter(keep, s);
      if keep(s[0]) {
        assert r[0] == s[0] && r[1..] == Filter(keep, s[1..]);
      } else {
        assert r == Filter(keep, s[1..]);
      }
    }
  }

  /** Filtering keeps every occurrence of an accepted element and none of a rejected one. */
  lemma {:induction false} FilterCount(keep: string -> bool, s: seq<string>, x: string)
    ensures multiset(Filter(keep, s))[x] == if keep(x) then multiset(s)[x] else 0
    decreases |s|
  {
    if s != [] {
      FilterCount(keep, s[1..], x);
      assert s == [s[0]] + s[1..];
      assert multiset(s) == multiset([s[0]]) + multiset(s[1..]);
    }
  }

  /** Deleting elements twice is deleting elements. */
  lemma {:induction false} SubsequenceTransitive<T>(a: seq<T>, b: seq<T>, c: seq<T>)
    requires Subsequence(a, b) && Subsequence(b, c)
    ensures Subsequence(a, c)
    decreases |c|
  {
    if a != [] {
      if b[0] == c[0] && Subsequence(b[1..], c[1..]) {
        if a[0] == b[0] && Subsequence(a[1..], b[1..]) {
          SubsequenceTransitive(a[1..], b[1..], c[1..]);
        } else {
          SubsequenceTransitive(a, b[1..], c[1..]);
        }
      } else {
        SubsequenceTransitive(a, b, c[1..]);
      }
    }
  }

  /** A token survives when it is alphabetic and not a stop word. */
  predicate Kept(tk: Toolkit, token: string) {
    tk.isAlpha(token) && token !in tk.stopWords
  }

  /**
   `extract_japanese_words`: no words unless the text is identified as
   Japanese; otherwise the tokens that are alphabetic, minus the stop words,
   in order.
   */
  function JapaneseWords(tk: Toolkit, text: string): (r: seq<string>)
    ensures tk.classify(text) != Target ==> r == []
    ensures forall w :: w in r <==> tk.classify(text) == Target && w in tk.tokenize(text) && Kept(tk, w)
  {
    if tk.classify(text) != Target then []
    else
      var alphabetic := Filter(tk.isAlpha, tk.tokenize(text));
      Filter(w => w !in tk.stopWords, alphabetic)
  }

  /**
   The words are the tokens with the rejected ones deleted: every surviving
   token keeps all its occurrences and its place in the order.
   */
  lemma JapaneseWordsFromTokens(tk: Toolkit, text: string)
    ensures Subsequence(JapaneseWords(tk, text), tk.tokenize(text))
    ensures forall w :: multiset(JapaneseWords(tk, text))[w] ==
                       (if tk.classify(text) == Target && Kept(tk, w) then multiset(tk.tokenize(text))[w] else 0)
  {
    var tokens := tk.tokenize(text);
    if tk.classify(text) == Target {
      var notStop := (w: string) => w !in tk.stopWords;
      var alphabetic := Filter(tk.isAlpha, tokens);
      assert JapaneseWords(tk, text) == Filter(notStop, alphabetic);
      FilterIsSubsequence(tk.isAlpha, tokens);
      FilterIsSubsequence(notStop, alphabetic);
      SubsequenceTransitive(Filter(notStop, alphabetic), alphabetic, tokens);
      forall w
        ensures multiset(JapaneseWords(tk, text))[w] == (if Kept(tk, w) then multiset(tokens)[w] else 0)
      {
        FilterCount(tk.isAlpha, tokens, w);
        FilterCount(notStop, alphabetic, w);
      }
    }
  }

}
