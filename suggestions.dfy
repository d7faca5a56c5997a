/**
 * The two random picks of AIController: suggestMood and generateMockResponse. Each takes one
 * element of a fixed pool keyed by sentiment; array_rand's choice is the caller's `roll`.
 */
module Suggestions {
  import opened Wrappers
  import opened Sentiment

  /** $moodMap of suggestMood. */
  function MoodPool(s: Sentiment): (pool: seq<string>)
    ensures |pool| >= 2
  {
    match s
    case Positive => ["happy", "excited", "grateful", "calm"]
    case Negative => ["sad", "angry", "anxious", "stressed"]
    case Neutral => ["calm", "grateful"]
  }

  /** suggestMood: the pool element that array_rand picked. */
  function SuggestMood(s: Sentiment, roll: nat): (m: string)
    requires roll < |MoodPool(s)|
    ensures m in MoodPool(s)
  {
    MoodPool(s)[roll]
  }

  /** Every mood of the pool can be suggested. */
  lemma EveryMoodReachable(s: Sentiment, m: string)
    requires m in MoodPool(s)
    ensures exists roll: nat :: roll < |MoodPool(s)| && SuggestMood(s, roll) == m
  {
    var roll :| 0 <= roll < |MoodPool(s)| && MoodPool(s)[roll] == m;
    assert SuggestMood(s, roll) == m;
  }

  /** $responses of generateMockResponse: three canned sentences per sentiment. */
  function ReflectionPool(s: Sentiment): (pool: seq<string>)
    ensures |pool| == 3
  {
    match s
    case Positive => [
      "It's wonderful to see the positivity in your writing!",
      "Your optimistic outlook shines through.",
      "This entry reflects a healthy mindset."]
    case Negative => [
      "I hear that you're going through a difficult time.",
      "It takes courage to express these emotions.",
      "Thank you for sharing these honest feelings."]
    case Neutral => [
      "Your reflection shows thoughtful consideration.",
      "This balanced perspective is valuable.",
      "Your journaling helps you process your thoughts."]
  }

  /** generateMockResponse: the canned sentence that array_rand picked. */
  function GenerateMockResponse(s: Sentiment, roll: nat): (r: string)
    requires roll < |ReflectionPool(s)|
    ensures r in ReflectionPool(s)
  {
    ReflectionPool(s)[roll]
  }

  /** The three sentence pools share no sentence. */
  lemma ReflectionPoolsDisjoint(a: Sentiment, b: Sentiment, r: string)
    requires r in ReflectionPool(a) && r in ReflectionPool(b)
    ensures a == b
  {
  }

  /** Which pool a canned sentence belongs to, if any. */
  function PoolOf(r: string): (s: Option<Sentiment>)
    ensures s.Some? ==> r in ReflectionPool(s.value)
    ensures s.None? ==> forall t: Sentiment :: r !in ReflectionPool(t)
  {
    if r in ReflectionPool(Positive) then Some(Positive)
    else if r in ReflectionPool(Negative) then Some(Negative)
    else if r in ReflectionPool(Neutral) then Some(Neutral)
    else None
  }

  /** A canned reflection gives away the sentiment it was drawn for. */
  lemma ReflectionRevealsSentiment(s: Sentiment, roll: nat)
    requires roll < |ReflectionPool(s)|
    ensures PoolOf(GenerateMockResponse(s, roll)) == Some(s)
  {
    var r := GenerateMockResponse(s, roll);
    if PoolOf(r).Some? {
      ReflectionPoolsDisjoint(s, PoolOf(r).value, r);
    }
  }
}
