/**
 * The three PHP string builtins the analysis engine relies on, restricted to ASCII:
 * strtolower, substr_count and str_word_count (format 1, "return the words").
 */
module Text {

  predicate IsUpper(c: char) { 'A' <= c <= 'Z' }

  predicate IsLetter(c: char) { 'a' <= c <= 'z' || IsUpper(c) }

  /** Characters str_word_count accepts inside a word: letters, apostrophe and hyphen. */
  predicate IsWordChar(c: char) { IsLetter(c) || c == '\'' || c == '-' }

  predicate NoUpper(s: string) { forall i :: 0 <= i < |s| ==> !IsUpper(s[i]) }

  predicate AllWordChars(s: string) { forall i :: 0 <= i < |s| ==> IsWordChar(s[i]) }

  // ---------------------------------------------------------------- strtolower

  function LowerChar(c: char): (d: char)
    ensures !IsUpper(d)
    ensures IsUpper(c) ==> d as int == c as int + 32
    ensures !IsUpper(c) ==> d == c
  {
    if IsUpper(c) then (c as int + 32) as char else c
  }

  /** strtolower: ASCII upper-case letters become lower-case, every other character stays. */
  function Lower(s: string): (r: string)
    ensures |r| == |s| && NoUpper(r)
    ensures forall i :: 0 <= i < |s| ==> r[i] == LowerChar(s[i])
  {
    seq(|s|, i requires 0 <= i < |s| => LowerChar(s[i]))
  }

  /** Text that has no upper-case letter is its own lower-case form. */
  lemma LowerOfLower(s: string)
    requires NoUpper(s)
    ensures Lower(s) == s
  {
    assert forall i :: 0 <= i < |s| ==> Lower(s)[i] == s[i];
  }

  lemma LowerIdempotent(s: string)
    ensures Lower(Lower(s)) == Lower(s)
  {
    LowerOfLower(Lower(s));
  }

  /** Lower-casing keeps word characters word characters and the rest not. */
  lemma LowerKeepsWordChars(s: string)
    ensures forall i :: 0 <= i < |s| ==> (IsWordChar(Lower(s)[i]) <==> IsWordChar(s[i]))
  {
  }

  // --------------------------------------------------------------- substr_count

  predicate OccursAt(hay: string, needle: string, i: int)
  {
    0 <= i && i + |needle| <= |hay| && hay[i..i + |needle|] == needle
  }

  /**
   * substr_count: occurrences of a non-empty needle, found left to right; after a match the
   * scan resumes behind it, so overlapping occurrences are not counted twice.
   */
  function SubstrCount(hay: string, needle: string): (n: nat)
    requires needle != []
    ensures n * |needle| <= |hay|
    decreases |hay|
  {
    if |hay| < |needle| then 0
    else if hay[..|needle|] == needle then 1 + SubstrCount(hay[|needle|..], needle)
    else SubstrCount(hay[1..], needle)
  }

  /** The needle is counted at least once exactly when it occurs somewhere. */
  lemma {:induction false} SubstrCountPositive(hay: string, needle: string)
    requires needle != []
    ensures SubstrCount(hay, needle) > 0 <==> exists i :: OccursAt(hay, needle, i)
    decreases |hay|
  {
    if |hay| < |needle| {
      assert forall i :: !OccursAt(hay, needle, i);
    } else if hay[..|needle|] == needle {
      assert OccursAt(hay, needle, 0);
    } else {
      SubstrCountPositive(hay[1..], needle);
      if exists i :: OccursAt(hay, needle, i) {
        var i :| OccursAt(hay, needle, i);
        assert i != 0;
        assert hay[1..][i - 1..i - 1 + |needle|] == hay[i..i + |needle|];
        assert OccursAt(hay[1..], needle, i - 1);
      }
      if exists i :: OccursAt(hay[1..], needle, i) {
        var i :| OccursAt(hay[1..], needle, i);
        assert hay[1..][i..i + |needle|] == hay[i + 1..i + 1 + |needle|];
        assert OccursAt(hay, needle, i + 1);
      }
    }
  }

  /** Matching is on substrings: a needle inside a longer word is counted. */
  lemma SubstrCountInsideWord(pre: string, needle: string, post: string)
    requires needle != []
    ensures SubstrCount(pre + needle + post, needle) >= 1
  {
    var hay := pre + needle + post;
    assert hay[|pre|..|pre| + |needle|] == needle;
    assert OccursAt(hay, needle, |pre|);
    SubstrCountPositive(hay, needle);
  }

  /**
   * Matches do not overlap: after a match at the front the scan resumes behind it, so none
   * of the matched characters is counted again.
   */
  lemma SubstrCountResumesAfterMatch(needle: string, rest: string)
    requires needle != []
    ensures SubstrCount(needle + rest, needle) == 1 + SubstrCount(rest, needle)
  {
    var hay := needle + rest;
    assert hay[..|needle|] == needle;
    assert hay[|needle|..] == rest;
  }

  /** Two instances: a self-overlapping term is counted once, a term inside a word is counted. */
  lemma SubstrCountNonOverlapping()
    ensures SubstrCount("depressedepressed", "depressed") == 1
    ensures SubstrCount("enjoy", "joy") == 1
  {
  }

  // ------------------------------------------------------------- str_word_count

  /** Length of the run of word characters at the start of s. */
  function RunLength(s: string): (k: nat)
    ensures k <= |s|
    ensures AllWordChars(s[..k])
    ensures k < |s| ==> !IsWordChar(s[k])
  {
    if s == [] || !IsWordChar(s[0]) then 0 else 1 + RunLength(s[1..])
  }

  /** The maximal runs of word characters of s, left to right. */
  function Runs(s: string): (ws: seq<string>)
    ensures forall i :: 0 <= i < |ws| ==> ws[i] != [] && AllWordChars(ws[i])
    decreases |s|
  {
    if s == [] then []
    else if !IsWordChar(s[0]) then Runs(s[1..])
    else
      var k := RunLength(s);
      [s[..k]] + Runs(s[k..])
  }

  /**
   * str_word_count(s, 1). PHP skips the first character of the whole string when it is an
   * apostrophe or a hyphen and drops the last one when it is a hyphen; in between, every
   * maximal run of letters, apostrophes and hyphens is a word.
   */
  function WordTokens(s: string): (ws: seq<string>)
    ensures forall i :: 0 <= i < |ws| ==> ws[i] != [] && AllWordChars(ws[i])
  {
    if s == [] then []
    else
      var p := if s[0] == '\'' || s[0] == '-' then 1 else 0;
      var e := if s[|s| - 1] == '-' then |s| - 1 else |s|;
      if p < e then Runs(s[p..e]) else []
  }

  /** A separator splits the runs: those of a + [c] + b are those of a followed by those of b. */
  lemma {:induction false} RunsSplit(a: string, c: char, b: string)
    requires !IsWordChar(c)
    ensures Runs(a + [c] + b) == Runs(a) + Runs(b)
    decreases |a|
  {
    var s := a + [c] + b;
    if a == [] {
      assert s[1..] == b;
    } else if !IsWordChar(a[0]) {
      assert s[1..] == a[1..] + [c] + b;
      RunsSplit(a[1..], c, b);
    } else {
      var k := RunLength(a);
      RunLengthPrefix(a, [c] + b);
      assert s == a + ([c] + b);
      assert s[..k] == a[..k];
      assert s[k..] == a[k..] + [c] + b;
      if k < |a| {
        RunsSplit(a[k..], c, b);
      } else {
        assert a[k..] == [];
        assert s[k..] == [c] + b;
        assert (s[k..])[1..] == b;
        assert Runs(a[k..]) == [];
      }
    }
  }

  /** A run that stops before the end of a stops at the same place in a + t. */
  lemma {:induction false} RunLengthPrefix(a: string, t: string)
    requires t != [] && !IsWordChar(t[0])
    ensures RunLength(a + t) == RunLength(a)
    decreases |a|
  {
    if a == [] {
      assert a + t == t;
    } else if IsWordChar(a[0]) {
      assert (a + t)[1..] == a[1..] + t;
      RunLengthPrefix(a[1..], t);
    }
  }

  /** A word that starts with a letter and does not end in a hyphen is its own only token. */
  lemma SingleWord(w: string)
    requires w != [] && IsLetter(w[0]) && AllWordChars(w) && w[|w| - 1] != '-'
    ensures WordTokens(w) == [w]
  {
    RunLengthAll(w);
    assert w[0..|w|] == w && w[..|w|] == w && w[|w|..] == [];
    assert Runs(w) == [w[..|w|]] + Runs(w[|w|..]);
  }

  lemma {:induction false} RunLengthAll(w: string)
    requires AllWordChars(w)
    ensures RunLength(w) == |w|
  {
    if w != [] {
      RunLengthAll(w[1..]);
    }
  }
}
