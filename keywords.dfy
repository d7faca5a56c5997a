/**
 * The keyword extractor of AIController::extractKeywords: str_word_count on the lower-cased
 * text, array_diff against a stop list, array_count_values, arsort, and the first five keys.
 */
module Keywords {
  import opened Text

  const StopWords: seq<string> :=
    ["the", "and", "or", "but", "in", "on", "at", "to", "for", "of", "with", "by", "a", "an",
     "is", "was", "were", "been", "be", "have", "has", "had", "do", "does", "did", "will",
     "would", "could", "should"]

  const MaxKeywords: nat := 5

  predicate NoDuplicates<T(==)>(s: seq<T>)
  {
    forall i, j :: 0 <= i < j < |s| ==> s[i] != s[j]
  }

  // ------------------------------------------------------------------ array_diff

  /** array_diff($words, $stopWords): the words not in the stop list, in their order. */
  function DropStopWords(words: seq<string>): (r: seq<string>)
    ensures forall w :: w in r <==> w in words && w !in StopWords
    ensures forall w :: w !in StopWords ==> multiset(r)[w] == multiset(words)[w]
  {
    if words == [] then []
    else
      assert words == [words[0]] + words[1..];
      (if words[0] in StopWords then [] else [words[0]]) + DropStopWords(words[1..])
  }

  /** The tokens that can become keywords, with their multiplicities. */
  function Tokens(text: string): (ts: seq<string>)
  {
    DropStopWords(WordTokens(Lower(text)))
  }

  /** How often a word occurs among those tokens: its value in array_count_values. */
  function Frequency(text: string, w: string): (n: nat)
  {
    multiset(Tokens(text))[w]
  }

  // ---------------------------------------------------------- array_count_values

  /** Each distinct element once, in order of first occurrence (the key order of PHP's array). */
  function Distinct(s: seq<string>): (d: seq<string>)
    ensures NoDuplicates(d)
    ensures forall x :: x in d <==> x in s
  {
    if s == [] then []
    else
      var d := Distinct(s[..|s| - 1]);
      assert forall x :: x in s <==> x in s[..|s| - 1] || x == s[|s| - 1] by {
        assert s == s[..|s| - 1] + [s[|s| - 1]];
      }
      if s[|s| - 1] in d then d else d + [s[|s| - 1]]
  }

  /** A key of the count array with its value. */
  datatype Entry = Entry(word: string, count: nat)

  function WordsOf(es: seq<Entry>): (ws: seq<string>)
    ensures |ws| == |es|
    ensures forall i :: 0 <= i < |es| ==> ws[i] == es[i].word
  {
    seq(|es|, i requires 0 <= i < |es| => es[i].word)
  }

  /** array_count_values: every distinct word with the number of times it occurs. */
  function CountValues(words: seq<string>): (r: seq<Entry>)
    ensures NoDuplicates(WordsOf(r))
    ensures forall e :: e in r ==> e.word in words && e.count == multiset(words)[e.word]
    ensures forall w :: w in words ==> w in WordsOf(r)
  {
    var d := Distinct(words);
    var r := seq(|d|, i requires 0 <= i < |d| => Entry(d[i], multiset(words)[d[i]]));
    assert WordsOf(r) == d;
    r
  }

  // ----------------------------------------------------------------------- arsort

  ghost predicate SortedByCount(es: seq<Entry>)
  {
    forall i, j :: 0 <= i < j < |es| ==> es[i].count >= es[j].count
  }

  /** Puts e behind every entry whose count is at least its own, as a stable sort does. */
  function InsertByCount(e: Entry, es: seq<Entry>): (r: seq<Entry>)
    ensures |r| == |es| + 1
    ensures multiset(r) == multiset(es) + multiset{e}
    ensures SortedByCount(es) ==> SortedByCount(r)
  {
    if es == [] then [e]
    else if es[0].count >= e.count then
      var tail := InsertByCount(e, es[1..]);
      assert es == [es[0]] + es[1..];
      InsertBehind(e, es, tail);
      [es[0]] + tail
    else
      assert SortedByCount(es) ==> SortedByCount([e] + es) by {
        if SortedByCount(es) {
          ConsSorted(e, es);
        }
      }
      [e] + es
  }

  lemma ConsSorted(x: Entry, t: seq<Entry>)
    requires SortedByCount(t)
    requires forall j :: 0 <= j < |t| ==> t[j].count <= x.count
    ensures SortedByCount([x] + t)
  {
  }

  /** The step of InsertByCount that keeps es[0] in front of the insertion into es[1..]. */
  lemma InsertBehind(e: Entry, es: seq<Entry>, tail: seq<Entry>)
    requires es != [] && e.count <= es[0].count
    requires multiset(tail) == multiset(es[1..]) + multiset{e}
    requires SortedByCount(es[1..]) ==> SortedByCount(tail)
    ensures SortedByCount(es) ==> SortedByCount([es[0]] + tail)
  {
    if SortedByCount(es) {
      assert SortedByCount(es[1..]) by {
        forall i, j | 0 <= i < j < |es[1..]| ensures es[1..][i].count >= es[1..][j].count {
          assert es[1..][i] == es[i + 1] && es[1..][j] == es[j + 1];
        }
      }
      forall j | 0 <= j < |tail| ensures tail[j].count <= es[0].count {
        assert tail[j] in multiset(tail);
        if tail[j] != e {
          assert tail[j] in multiset(es[1..]);
          var i :| 0 <= i < |es[1..]| && es[1..][i] == tail[j];
          assert es[i + 1] == tail[j];
        }
      }
      ConsSorted(es[0], tail);
    }
  }

  /**
   * arsort: entries by descending count. It is an insertion sort that keeps equal counts in
   * their original order (the stable sort of PHP 8); only sortedness and permutation are claimed.
   */
  function SortByCount(es: seq<Entry>): (r: seq<Entry>)
    ensures |r| == |es|
    ensures multiset(r) == multiset(es)
    ensures SortedByCount(r)
  {
    if es == [] then []
    else
      var init := es[..|es| - 1];
      assert es == init + [es[|es| - 1]];
      InsertByCount(es[|es| - 1], SortByCount(init))
  }

  /** Without duplicates, every element occurs once. */
  lemma {:induction false} NoDuplicatesOnce<T>(s: seq<T>, x: T)
    requires NoDuplicates(s)
    ensures multiset(s)[x] <= 1
  {
    if s != [] {
      assert s == [s[0]] + s[1..];
      NoDuplicatesOnce(s[1..], x);
      if x == s[0] {
        forall i | 0 <= i < |s[1..]| ensures s[1..][i] != x {
          assert s[i + 1] != s[0];
        }
        assert x !in s[1..];
      }
    }
  }

  /** A permutation of a sequence without duplicates has none either. */
  lemma PermutationNoDuplicates<T>(a: seq<T>, b: seq<T>)
    requires NoDuplicates(a) && multiset(a) == multiset(b)
    ensures NoDuplicates(b)
  {
    forall i, j | 0 <= i < j < |b| ensures b[i] != b[j] {
      NoDuplicatesOnce(a, b[i]);
      assert b == b[..j] + b[j..];
      assert b[i] in b[..j] && b[j] in b[j..];
      assert multiset(b) == multiset(b[..j]) + multiset(b[j..]);
      assert multiset(b[..j])[b[i]] >= 1;
      assert multiset(b[j..])[b[j]] >= 1;
    }
  }

  // -------------------------------------------------------------- extractKeywords

  /** The ranked count array of the text. */
  function Ranked(text: string): (es: seq<Entry>)
  {
    SortByCount(CountValues(Tokens(text)))
  }

  /** extractKeywords: the keys of the ranked count array, at most the first five. */
  function ExtractKeywords(text: string): (r: seq<string>)
    ensures |r| == if |Ranked(text)| <= MaxKeywords then |Ranked(text)| else MaxKeywords
    ensures forall i :: 0 <= i < |r| ==> r[i] == Ranked(text)[i].word
  {
    var keys := WordsOf(Ranked(text));
    if |keys| <= MaxKeywords then keys else keys[..MaxKeywords]
  }

  /** Facts about the ranked array that every keyword lemma uses. */
  lemma RankedFacts(text: string)
    ensures NoDuplicates(WordsOf(Ranked(text)))
    ensures SortedByCount(Ranked(text))
    ensures forall e :: e in Ranked(text) ==> e.word in Tokens(text) && e.count == Frequency(text, e.word)
    ensures forall w :: w in Tokens(text) ==> w in WordsOf(Ranked(text))
  {
    PermutedEntries(CountValues(Tokens(text)), Ranked(text));
  }

  /** What a reordering of the count array keeps: its entries, its words, their distinctness. */
  lemma PermutedEntries(counts: seq<Entry>, ranked: seq<Entry>)
    requires multiset(ranked) == multiset(counts)
    requires NoDuplicates(WordsOf(counts))
    ensures forall e :: e in ranked ==> e in counts
    ensures forall w :: w in WordsOf(counts) ==> w in WordsOf(ranked)
    ensures NoDuplicates(WordsOf(ranked))
  {
    forall e | e in ranked ensures e in counts {
      assert e in multiset(ranked);
    }
    // Entries of counts with equal words are the same entry, so counts has no duplicates,
    // hence neither has its permutation ranked, and the words of ranked differ.
    forall p, q | 0 <= p < q < |counts| ensures counts[p] != counts[q] {
      assert WordsOf(counts)[p] != WordsOf(counts)[q];
    }
    PermutationNoDuplicates(counts, ranked);
    forall i, j | 0 <= i < j < |ranked| ensures WordsOf(ranked)[i] != WordsOf(ranked)[j] {
      assert ranked[i] in counts && ranked[j] in counts;
      var p :| 0 <= p < |counts| && counts[p] == ranked[i];
      var q :| 0 <= q < |counts| && counts[q] == ranked[j];
      assert p != q;
      assert WordsOf(counts)[p] != WordsOf(counts)[q];
    }
    forall w | w in WordsOf(counts) ensures w in WordsOf(ranked) {
      var p :| 0 <= p < |counts| && WordsOf(counts)[p] == w;
      assert counts[p] in multiset(ranked);
      var i :| 0 <= i < |ranked| && ranked[i] == counts[p];
      assert WordsOf(ranked)[i] == w;
    }
  }

  /** Every ranked word is a candidate token. */
  lemma RankedWordsAreTokens(text: string)
    ensures forall i :: 0 <= i < |Ranked(text)| ==> Ranked(text)[i].word in Tokens(text)
  {
    RankedFacts(text);
    forall i | 0 <= i < |Ranked(text)| ensures Ranked(text)[i].word in Tokens(text) {
      assert Ranked(text)[i] in Ranked(text);
    }
  }

  /** At most five keywords, pairwise distinct, none a stop word, each a token of the text. */
  lemma KeywordsWellFormed(text: string)
    ensures |ExtractKeywords(text)| <= MaxKeywords
    ensures NoDuplicates(ExtractKeywords(text))
    ensures forall w :: w in ExtractKeywords(text) ==> w !in StopWords
    ensures forall w :: w in ExtractKeywords(text) ==> w in WordTokens(Lower(text))
  {
    var keys := WordsOf(Ranked(text));
    var r := ExtractKeywords(text);
    assert NoDuplicates(keys) by {
      RankedFacts(text);
    }
    RankedWordsAreTokens(text);
    forall w | w in r ensures w in Tokens(text) {
      var i :| 0 <= i < |r| && r[i] == w;
      assert r[i] == keys[i];
    }
  }

  /** The keywords come in order of non-increasing frequency. */
  lemma KeywordsByFrequency(text: string)
    ensures forall i, j :: 0 <= i < j < |ExtractKeywords(text)| ==>
      Frequency(text, ExtractKeywords(text)[i]) >= Frequency(text, ExtractKeywords(text)[j])
  {
    RankedFacts(text);
    var ranked := Ranked(text);
    var r := ExtractKeywords(text);
    forall i, j | 0 <= i < j < |r| ensures Frequency(text, r[i]) >= Frequency(text, r[j]) {
      assert ranked[i] in ranked && ranked[j] in ranked;
    }
  }

  /** No token left out is more frequent than any keyword that was kept. */
  lemma KeywordsAreMostFrequent(text: string, w: string, j: nat)
    requires w in Tokens(text) && w !in ExtractKeywords(text)
    requires j < |ExtractKeywords(text)|
    ensures Frequency(text, w) <= Frequency(text, ExtractKeywords(text)[j])
  {
    RankedFacts(text);
    var ranked := Ranked(text);
    var r := ExtractKeywords(text);
    var keys := WordsOf(ranked);
    assert w in keys;
    var k :| 0 <= k < |keys| && keys[k] == w;
    assert forall i :: 0 <= i < |r| ==> r[i] == keys[i];
    assert k >= |r|;
    assert ranked[j] in ranked && ranked[k] in ranked;
  }

  /** Unless five keywords are returned, every candidate token is returned. */
  lemma KeywordsComplete(text: string)
    ensures |ExtractKeywords(text)| == MaxKeywords ||
      forall w :: w in ExtractKeywords(text) <==> w in Tokens(text)
  {
    RankedFacts(text);
    KeywordsWellFormed(text);
    var r := ExtractKeywords(text);
    if |r| != MaxKeywords {
      assert r == WordsOf(Ranked(text));
      forall w | w in r ensures w in Tokens(text) {
        var i :| 0 <= i < |r| && r[i] == w;
        assert Ranked(text)[i] in Ranked(text);
      }
    }
  }

  /** A text without candidate tokens has no keywords. */
  lemma NoTokensNoKeywords(text: string)
    requires Tokens(text) == []
    ensures ExtractKeywords(text) == []
  {
    assert Distinct(Tokens(text)) == [];
  }
}
