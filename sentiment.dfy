/**
 * The sentiment classifier of AIController::analyzeSentiment: substring counts of eight
 * positive and eight negative terms in the lower-cased text, compared.
 */
module Sentiment {
  import opened Text

  datatype Sentiment = Positive | Negative | Neutral

  /** The label the controller returns and the JSON response carries. */
  function Label(s: Sentiment): (l: string)
    ensures l in ["positive", "negative", "neutral"]
  {
    match s
    case Positive => "positive"
    case Negative => "negative"
    case Neutral => "neutral"
  }

  lemma LabelInjective(a: Sentiment, b: Sentiment)
    requires Label(a) == Label(b)
    ensures a == b
  {
  }

  const PositiveTerms: seq<string> :=
    ["happy", "joy", "excited", "great", "amazing", "wonderful", "love", "grateful"]

  const NegativeTerms: seq<string> :=
    ["sad", "angry", "frustrated", "terrible", "awful", "hate", "depressed", "anxious"]

  predicate NonEmptyTerms(terms: seq<string>)
  {
    forall i :: 0 <= i < |terms| ==> terms[i] != []
  }

  /** Sum over the terms of their substr_count in text. */
  function Score(text: string, terms: seq<string>): (n: nat)
    requires NonEmptyTerms(terms)
  {
    if terms == [] then 0
    else Score(text, terms[..|terms| - 1]) + SubstrCount(text, terms[|terms| - 1])
  }

  function PositiveScore(text: string): (n: nat)
  {
    Score(Lower(text), PositiveTerms)
  }

  function NegativeScore(text: string): (n: nat)
  {
    Score(Lower(text), NegativeTerms)
  }

  /** The comparison at the end of analyzeSentiment; ties, 0 against 0 included, are neutral. */
  function Classify(positive: nat, negative: nat): (s: Sentiment)
    ensures s == Positive <==> positive > negative
    ensures s == Negative <==> negative > positive
    ensures s == Neutral <==> positive == negative
  {
    if positive > negative then Positive
    else if negative > positive then Negative
    else Neutral
  }

  /** The sentiment of a text: the side with more term occurrences, neutral on a tie. */
  function SentimentOf(text: string): (s: Sentiment)
    ensures s == Positive <==> PositiveScore(text) > NegativeScore(text)
    ensures s == Negative <==> NegativeScore(text) > PositiveScore(text)
    ensures s == Neutral <==> PositiveScore(text) == NegativeScore(text)
  {
    Classify(PositiveScore(text), NegativeScore(text))
  }

  /** analyzeSentiment, with its two accumulating loops. */
  method AnalyzeSentiment(text: string) returns (s: Sentiment)
    ensures s == SentimentOf(text)
    ensures s == Positive <==> PositiveScore(text) > NegativeScore(text)
    ensures s == Negative <==> NegativeScore(text) > PositiveScore(text)
    ensures s == Neutral <==> PositiveScore(text) == NegativeScore(text)
  {
    var lowered := Lower(text);
    var positiveCount := 0;
    var negativeCount := 0;
    for i := 0 to |PositiveTerms|
      invariant positiveCount == Score(lowered, PositiveTerms[..i])
    {
      assert PositiveTerms[..i + 1][..i] == PositiveTerms[..i];
      positiveCount := positiveCount + SubstrCount(lowered, PositiveTerms[i]);
    }
    for i := 0 to |NegativeTerms|
      invariant negativeCount == Score(lowered, NegativeTerms[..i])
    {
      assert NegativeTerms[..i + 1][..i] == NegativeTerms[..i];
      negativeCount := negativeCount + SubstrCount(lowered, NegativeTerms[i]);
    }
    assert PositiveTerms[..|PositiveTerms|] == PositiveTerms;
    assert NegativeTerms[..|NegativeTerms|] == NegativeTerms;
    if positiveCount > negativeCount {
      s := Positive;
    } else if negativeCount > positiveCount {
      s := Negative;
    } else {
      s := Neutral;
    }
  }

  /** Each term's own count is part of the score. */
  lemma {:induction false} ScoreCountsTerm(text: string, terms: seq<string>, k: nat)
    requires NonEmptyTerms(terms) && k < |terms|
    ensures Score(text, terms) >= SubstrCount(text, terms[k])
  {
    var init := terms[..|terms| - 1];
    if k < |terms| - 1 {
      ScoreCountsTerm(text, init, k);
    }
  }

  /** Classification does not see case: a text and its lower-case form are classified alike. */
  lemma CaseInsensitive(text: string)
    ensures SentimentOf(Lower(text)) == SentimentOf(text)
  {
    LowerIdempotent(text);
  }

  /**
   * A positive term occurring anywhere in the lower-cased text, so in any letter case and
   * even inside a longer word, raises the positive score.
   */
  lemma PositiveTermInsideWord(text: string, k: nat)
    requires k < |PositiveTerms|
    requires exists i :: OccursAt(Lower(text), PositiveTerms[k], i)
    ensures PositiveScore(text) >= 1
  {
    SubstrCountPositive(Lower(text), PositiveTerms[k]);
    ScoreCountsTerm(Lower(text), PositiveTerms, k);
  }

  /** Likewise for a negative term. */
  lemma NegativeTermInsideWord(text: string, k: nat)
    requires k < |NegativeTerms|
    requires exists i :: OccursAt(Lower(text), NegativeTerms[k], i)
    ensures NegativeScore(text) >= 1
  {
    SubstrCountPositive(Lower(text), NegativeTerms[k]);
    ScoreCountsTerm(Lower(text), NegativeTerms, k);
  }

  /** An upper-case spelling counts: "I am HAPPY" scores for happy. */
  lemma UpperCaseTermCounts()
    ensures PositiveScore("I am HAPPY") >= 1
  {
    var text := "I am HAPPY";
    assert Lower(text)[5..10] == "happy";
    assert OccursAt(Lower(text), PositiveTerms[0], 5);
    PositiveTermInsideWord(text, 0);
  }

  /** With no term at all, both scores are 0 and the text is neutral. */
  lemma {:induction false} NoTermsScoreZero(text: string, terms: seq<string>)
    requires NonEmptyTerms(terms)
    requires forall k, i :: 0 <= k < |terms| ==> !OccursAt(text, terms[k], i)
    ensures Score(text, terms) == 0
  {
    if terms != [] {
      var init := terms[..|terms| - 1];
      NoTermsScoreZero(text, init);
      SubstrCountPositive(text, terms[|terms| - 1]);
    }
  }

  lemma NeutralWithoutTerms(text: string)
    requires forall k, i :: 0 <= k < |PositiveTerms| ==> !OccursAt(Lower(text), PositiveTerms[k], i)
    requires forall k, i :: 0 <= k < |NegativeTerms| ==> !OccursAt(Lower(text), NegativeTerms[k], i)
    ensures SentimentOf(text) == Neutral
  {
    NoTermsScoreZero(Lower(text), PositiveTerms);
    NoTermsScoreZero(Lower(text), NegativeTerms);
  }
}
