/**
 * The orchestration of AIController: mockAnalysis, performAIAnalysis with its three fallbacks
 * to the local bundle, and analyze, which validates the content and memoises per text.
 */
module Analysis {
  import opened Wrappers
  import opened Validation
  import opened Sentiment
  import opened Keywords
  import opened Suggestions
  import Journals

  /** The bundle performAIAnalysis returns and the cache stores. */
  datatype Analysis = Analysis(
    response: string,
    sentiment: Sentiment,
    keywords: seq<string>,
    suggestedMood: string)

  /** What the chat-completion request produced: an exception, or a decoded JSON body. */
  datatype ProviderReply =
    | Threw
    | Replied(content: Option<string>)   // choices[0].message.content, None if not set

  /** The indices array_rand returned for the mood and the canned reflection. */
  datatype Rolls = Rolls(mood: nat, reflection: nat)

  predicate RollsFit(s: Sentiment, rolls: Rolls)
  {
    rolls.mood < |MoodPool(s)| && rolls.reflection < |ReflectionPool(s)|
  }

  /** PHP truthiness of the configured key: null, "" and "0" count as no key. */
  predicate HasKey(apiKey: Option<string>)
    ensures HasKey(apiKey) ==> apiKey.Some? && |apiKey.value| >= 1
    ensures apiKey.Some? && |apiKey.value| >= 2 ==> HasKey(apiKey)
    ensures apiKey.Some? && |apiKey.value| == 1 ==> (HasKey(apiKey) <==> apiKey.value[0] != '0')
  {
    apiKey.Some? && apiKey.value != "" && apiKey.value != "0"
  }

  /** mockAnalysis: everything computed locally. */
  function MockAnalysis(text: string, rolls: Rolls): (a: Analysis)
    requires RollsFit(SentimentOf(text), rolls)
    ensures a.sentiment == SentimentOf(text)
    ensures a.keywords == ExtractKeywords(text)
    ensures a.suggestedMood in MoodPool(a.sentiment)
    ensures a.response in ReflectionPool(a.sentiment)
  {
    var sentiment := SentimentOf(text);
    Analysis(GenerateMockResponse(sentiment, rolls.reflection), sentiment,
             ExtractKeywords(text), SuggestMood(sentiment, rolls.mood))
  }

  /** The provider's reflection, when the call was made and answered with content. */
  function ProviderContent(apiKey: Option<string>, text: string,
                           provider: (string, string) -> ProviderReply): (c: Option<string>)
    ensures c.Some? ==> HasKey(apiKey) && provider(apiKey.value, text) == Replied(c)
    ensures c.None? <==>
      !HasKey(apiKey) || provider(apiKey.value, text) in {Threw, Replied(None)}
  {
    if !HasKey(apiKey) then None
    else match provider(apiKey.value, text)
      case Threw => None
      case Replied(content) => content
  }

  /**
   * performAIAnalysis: without a key, on an exception, or when the body lacks the content,
   * the local bundle; otherwise the provider's content with locally computed fields.
   */
  function PerformAIAnalysis(apiKey: Option<string>, text: string,
                             provider: (string, string) -> ProviderReply, rolls: Rolls): (a: Analysis)
    requires RollsFit(SentimentOf(text), rolls)
    ensures a.sentiment == SentimentOf(text)
    ensures a.keywords == ExtractKeywords(text)
    ensures a.suggestedMood in MoodPool(a.sentiment)
    ensures ProviderContent(apiKey, text, provider).Some? ==>
      a.response == ProviderContent(apiKey, text, provider).value
    ensures ProviderContent(apiKey, text, provider).None? ==> a == MockAnalysis(text, rolls)
  {
    if !HasKey(apiKey) then MockAnalysis(text, rolls)
    else match provider(apiKey.value, text)
      case Threw => MockAnalysis(text, rolls)
      case Replied(None) => MockAnalysis(text, rolls)
      case Replied(Some(reply)) =>
        var sentiment := SentimentOf(text);
        Analysis(reply, sentiment, ExtractKeywords(text), SuggestMood(sentiment, rolls.mood))
  }

  /** Without a key the provider is never consulted: any two providers give the same bundle. */
  lemma NoKeyNoProviderCall(apiKey: Option<string>, text: string,
                            p: (string, string) -> ProviderReply,
                            q: (string, string) -> ProviderReply, rolls: Rolls)
    requires !HasKey(apiKey) && RollsFit(SentimentOf(text), rolls)
    ensures PerformAIAnalysis(apiKey, text, p, rolls) == PerformAIAnalysis(apiKey, text, q, rolls)
    ensures PerformAIAnalysis(apiKey, text, p, rolls).response in ReflectionPool(SentimentOf(text))
  {
  }

  /** Only the provider's answer for this key and this text matters. */
  lemma ProviderAskedOnce(apiKey: Option<string>, text: string,
                          p: (string, string) -> ProviderReply,
                          q: (string, string) -> ProviderReply, rolls: Rolls)
    requires HasKey(apiKey) && p(apiKey.value, text) == q(apiKey.value, text)
    requires RollsFit(SentimentOf(text), rolls)
    ensures PerformAIAnalysis(apiKey, text, p, rolls) == PerformAIAnalysis(apiKey, text, q, rolls)
  {
  }

  /** Every mood the engine suggests is one that store accepts. */
  lemma SuggestedMoodsAreStorable(s: Sentiment, roll: nat)
    requires roll < |MoodPool(s)|
    ensures SuggestMood(s, roll) in Journals.Moods
  {
  }

  // ---------------------------------------------------------------------- analyze

  /** The JSON body analyze returns. */
  datatype AnalyzeResponse = AnalyzeResponse(
    content: string,
    aiResponse: string,
    sentiment: string,
    keywords: seq<string>,
    suggestedMood: string)

  function Respond(text: string, a: Analysis): (r: AnalyzeResponse)
    ensures r.content == text && r.aiResponse == a.response && r.keywords == a.keywords
    ensures r.sentiment == Label(a.sentiment) && r.suggestedMood == a.suggestedMood
  {
    AnalyzeResponse(text, a.response, Label(a.sentiment), a.keywords, a.suggestedMood)
  }

  const ContentRules: seq<Rule> := [Required, IsString, Max(Journals.MaxContent)]

  /** The analyze endpoint's memo: a map from text to bundle (keyed by the text itself). */
  class AnalysisCache {
    var entries: map<string, Analysis>

    constructor ()
      ensures entries == map[]
    {
      entries := map[];
    }

    /** analyze: reject invalid content; on a hit return the stored bundle, on a miss store a new one. */
    method Analyze(content: Input, apiKey: Option<string>,
                   provider: (string, string) -> ProviderReply, rolls: Rolls)
      returns (r: Result<AnalyzeResponse, string>)
      requires content.Str? ==> RollsFit(SentimentOf(content.s), rolls)
      modifies this
      ensures Passes(content, ContentRules) <==>
        content.Str? && !Blank(content.s) && |content.s| <= Journals.MaxContent
      ensures !Passes(content, ContentRules) ==> r == Failure("content") && entries == old(entries)
      ensures Passes(content, ContentRules) && content.s in old(entries) ==>
        r == Success(Respond(content.s, old(entries)[content.s])) && entries == old(entries)
      ensures Passes(content, ContentRules) && content.s !in old(entries) ==>
        && entries == old(entries)[content.s := PerformAIAnalysis(apiKey, content.s, provider, rolls)]
        && r == Success(Respond(content.s, entries[content.s]))
    {
      RequiredStringMax(content, Journals.MaxContent);
      if !Passes(content, ContentRules) {
        return Failure("content");
      }
      var text := content.s;
      if text !in entries {
        entries := entries[text := PerformAIAnalysis(apiKey, text, provider, rolls)];
      }
      r := Success(Respond(text, entries[text]));
    }

    /**
     * The cached bundle of a text always carries the sentiment and keywords of that text,
     * whatever the provider answered and whichever picks were made.
     */
    ghost predicate Valid()
      reads this
    {
      forall t :: t in entries ==>
        entries[t].sentiment == SentimentOf(t) && entries[t].keywords == ExtractKeywords(t)
        && entries[t].suggestedMood in MoodPool(entries[t].sentiment)
    }
  }

  /** Analyze keeps the cache consistent with the texts it is keyed by. */
  method AnalyzeKeepsValid(cache: AnalysisCache, content: Input, apiKey: Option<string>,
                           provider: (string, string) -> ProviderReply, rolls: Rolls)
    returns (r: Result<AnalyzeResponse, string>)
    requires cache.Valid()
    requires content.Str? ==> RollsFit(SentimentOf(content.s), rolls)
    modifies cache
    ensures cache.Valid()
    ensures r.Success? <==> Passes(content, ContentRules)
    ensures r.Success? ==> content.Str?
    ensures r.Success? ==> r.value.sentiment == Label(SentimentOf(content.s))
    ensures r.Success? ==> r.value.keywords == ExtractKeywords(content.s)
  {
    r := cache.Analyze(content, apiKey, provider, rolls);
  }

  /**
   * Asking twice for the same text gives the identical response, reflection and mood
   * included, even when the provider and the picks differ between the calls.
   */
  method AnalyzeTwice(cache: AnalysisCache, text: string, apiKey: Option<string>,
                      p: (string, string) -> ProviderReply, q: (string, string) -> ProviderReply,
                      first: Rolls, second: Rolls)
    returns (r1: Result<AnalyzeResponse, string>, r2: Result<AnalyzeResponse, string>)
    requires RollsFit(SentimentOf(text), first) && RollsFit(SentimentOf(text), second)
    modifies cache
    ensures r1 == r2
    ensures r1.Success? <==> Passes(Str(text), ContentRules)
  {
    r1 := cache.Analyze(Str(text), apiKey, p, first);
    r2 := cache.Analyze(Str(text), apiKey, q, second);
  }
}
