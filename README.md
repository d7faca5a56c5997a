# mental-journal: a Dafny model of the analysis engine, the journal rules and the client list

mental-journal is a journaling application with a Laravel backend and a Next.js frontend.
This project models three parts of it and proves properties of each model.

- **The analysis engine of `AIController`.**
  - `analyzeSentiment` counts sixteen fixed terms as substrings of the lower-cased text and compares the positive and negative totals.
  - `extractKeywords` builds the keyword list: `str_word_count` → `array_diff` (stop words) → `array_count_values` → `arsort` → the first five keys.
  - `suggestMood` and `generateMockResponse` each pick one element of a fixed pool chosen by sentiment.
  - `mockAnalysis` and `performAIAnalysis` build the result bundle. `performAIAnalysis` asks an external chat provider for the reflection and falls back to the local bundle when there is no key, when the call throws, or when the reply has no content.
  - `analyze` validates the content and memoises the bundle per text.
- **The journal rules of `JournalController`.**
  - The validation rules of `store` and `update`, interpreted the way Laravel's validator does: `required`, `sometimes`, `nullable`, `string`, `max`, `in`, and the rules for when a rule is checked at all.
  - The record `store` creates.
  - The field whitelist of `update`. Eloquent refreshes `updated_at` only when an attribute actually changed.
  - The writing streak of `calculateStreak`, an early-exit loop over the distinct entry dates, newest first.
- **The client list of the `useJournals` hook.**
  - The `data.data.data → data.data → data` unwrapping of `fetchJournals` and its `Array.isArray(...) ? ... : []` guard.
  - The optimistic edits: prepend on create, replace by id on update, filter by id on delete.

Modules, one per file:

- `Wrappers` (`wrappers.dfy`): `Option` and `Result`.
- `Text` (`text.dfy`): ASCII `strtolower`, `substr_count` and `str_word_count` format 1.
- `Sentiment` (`sentiment.dfy`): the classifier. The loop method is proved against the function `SentimentOf`.
- `Keywords` (`keywords.dfy`): the keyword pipeline as pure functions.
- `Suggestions` (`suggestions.dfy`): the two random picks. The index that `array_rand` returns is a parameter.
- `Validation` (`validation.dfy`): a small interpreter of Laravel rule lists.
- `Journals` (`journals.dfy`): the journal record, `store` and `update`.
- `Streak` (`streak.dfy`): the streak loop, proved against the recursive `StreakOf`.
- `Analysis` (`analysis.dfy`): `mockAnalysis` and `performAIAnalysis`, plus the `analyze` endpoint. `analyze` is a class whose map field is the cache.
- `JournalList` (`journal_list.dfy`): the JSON values the hook sees, the unwrapping, the list edits, and the hook state as a class.

Two points where the code is easy to misread:

- The stop list at `AIController.php:132` does not contain "am", "so" or "what", so these can be keywords.
- PHP's manual says a `str_word_count` word may not start with an apostrophe or a hyphen. The implementation applies this only to the first character of the whole string, and drops only a final hyphen. `Text.WordTokens` follows the implementation.

## Model

| member | source | states |
|---|---|---|
| Text.Lower | backend-laravel/app/Http/Controllers/Api/AIController.php:108 | strtolower keeps the length, leaves no ASCII capital, and maps each character independently (A–Z shift by 32, everything else is kept) |
| Text.LowerIdempotent | backend-laravel/app/Http/Controllers/Api/AIController.php:108 | lower-casing twice is lower-casing once |
| Text.LowerKeepsWordChars | backend-laravel/app/Http/Controllers/Api/AIController.php:131 | lower-casing does not change which characters str_word_count treats as word characters |
| Text.SubstrCount | backend-laravel/app/Http/Controllers/Api/AIController.php:113 | substr_count's non-overlapping matches of a non-empty needle fit in the haystack (count × needle length ≤ haystack length) |
| Text.SubstrCountPositive | backend-laravel/app/Http/Controllers/Api/AIController.php:113 | the count is positive exactly when the needle occurs at some position |
| Text.SubstrCountInsideWord | backend-laravel/app/Http/Controllers/Api/AIController.php:117 | a needle embedded anywhere, even inside a longer word, is counted at least once |
| Text.SubstrCountResumesAfterMatch | backend-laravel/app/Http/Controllers/Api/AIController.php:113 | matches do not overlap: after a match at the front, counting resumes behind it, for every needle and text |
| Text.SubstrCountNonOverlapping | backend-laravel/app/Http/Controllers/Api/AIController.php:117 | matches do not overlap ("depressedepressed" has one "depressed"); a term inside a word counts ("enjoy" has one "joy") |
| Text.WordTokens | backend-laravel/app/Http/Controllers/Api/AIController.php:131 | str_word_count(…, 1) yields non-empty tokens made only of letters, apostrophes and hyphens |
| Text.RunsSplit | backend-laravel/app/Http/Controllers/Api/AIController.php:131 | a non-word character splits the text: the words of a·c·b are the words of a followed by those of b |
| Text.SingleWord | backend-laravel/app/Http/Controllers/Api/AIController.php:131 | a word that starts with a letter and does not end in a hyphen is tokenised as itself alone |
| Sentiment.Label | backend-laravel/app/Http/Controllers/Api/AIController.php:120-126 | the returned label is one of positive, negative, neutral |
| Sentiment.LabelInjective | backend-laravel/app/Http/Controllers/Api/AIController.php:120-126 | distinct sentiments have distinct labels |
| Sentiment.Classify | backend-laravel/app/Http/Controllers/Api/AIController.php:120-126 | positive iff the positive count is larger, negative iff the negative one is, neutral iff they are equal |
| Sentiment.SentimentOf | backend-laravel/app/Http/Controllers/Api/AIController.php:103-127 | the text is positive iff its lower-cased positive term count exceeds the negative one, negative iff the reverse, neutral on a tie |
| Sentiment.AnalyzeSentiment | backend-laravel/app/Http/Controllers/Api/AIController.php:103-127 | the two counting loops compute SentimentOf: positive iff the positive total exceeds the negative one, negative iff the reverse, neutral iff they are equal |
| Sentiment.ScoreCountsTerm | backend-laravel/app/Http/Controllers/Api/AIController.php:112-118 | every term's own substring count is part of its side's total |
| Sentiment.CaseInsensitive | backend-laravel/app/Http/Controllers/Api/AIController.php:108 | a text and its lower-case form get the same sentiment |
| Sentiment.PositiveTermInsideWord | backend-laravel/app/Http/Controllers/Api/AIController.php:105-114 | any positive term occurring in the lower-cased text (so in any letter case, also inside a longer word) makes the positive total at least 1 |
| Sentiment.NegativeTermInsideWord | backend-laravel/app/Http/Controllers/Api/AIController.php:106-118 | any negative term occurring in the lower-cased text (in any letter case, also inside a longer word) makes the negative total at least 1 |
| Sentiment.UpperCaseTermCounts | backend-laravel/app/Http/Controllers/Api/AIController.php:108-113 | an upper-case "HAPPY" counts for the positive total |
| Sentiment.NoTermsScoreZero | backend-laravel/app/Http/Controllers/Api/AIController.php:112-118 | a total is 0 when none of its terms occurs |
| Sentiment.NeutralWithoutTerms | backend-laravel/app/Http/Controllers/Api/AIController.php:120-126 | a text without any of the sixteen terms is neutral (the 0–0 tie) |
| Keywords.DropStopWords | backend-laravel/app/Http/Controllers/Api/AIController.php:132-134 | array_diff keeps exactly the non-stop words, each with its multiplicity |
| Keywords.Distinct | backend-laravel/app/Http/Controllers/Api/AIController.php:135 | the keys of the count array are duplicate-free and are exactly the words |
| Keywords.CountValues | backend-laravel/app/Http/Controllers/Api/AIController.php:135 | array_count_values gives each distinct word once, with its number of occurrences, and misses no word |
| Keywords.InsertByCount | backend-laravel/app/Http/Controllers/Api/AIController.php:136 | one insertion step of the sort adds exactly one entry and keeps a sorted array sorted |
| Keywords.SortByCount | backend-laravel/app/Http/Controllers/Api/AIController.php:136 | arsort returns a permutation of the entries ordered by non-increasing count |
| Keywords.ExtractKeywords | backend-laravel/app/Http/Controllers/Api/AIController.php:129-139 | the keywords are the words of the first min(5, n) entries of the ranked count array, in that order |
| Keywords.KeywordsWellFormed | backend-laravel/app/Http/Controllers/Api/AIController.php:129-139 | at most five keywords, pairwise distinct, none a stop word, each a word of the lower-cased text |
| Keywords.KeywordsByFrequency | backend-laravel/app/Http/Controllers/Api/AIController.php:136-138 | keywords come in order of non-increasing frequency |
| Keywords.KeywordsAreMostFrequent | backend-laravel/app/Http/Controllers/Api/AIController.php:136-138 | no candidate word left out is more frequent than any keyword kept |
| Keywords.KeywordsComplete | backend-laravel/app/Http/Controllers/Api/AIController.php:138 | fewer than five keywords means every candidate word is a keyword |
| Keywords.NoTokensNoKeywords | backend-laravel/app/Http/Controllers/Api/AIController.php:131-138 | a text with no candidate words has no keywords |
| Suggestions.MoodPool | backend-laravel/app/Http/Controllers/Api/AIController.php:143-147 | every sentiment has at least two moods to pick from |
| Suggestions.SuggestMood | backend-laravel/app/Http/Controllers/Api/AIController.php:141-151 | the suggested mood belongs to the sentiment's pool |
| Suggestions.EveryMoodReachable | backend-laravel/app/Http/Controllers/Api/AIController.php:149-150 | every mood of the pool is suggested for some random pick |
| Suggestions.ReflectionPool | backend-laravel/app/Http/Controllers/Api/AIController.php:155-171 | three canned sentences per sentiment |
| Suggestions.GenerateMockResponse | backend-laravel/app/Http/Controllers/Api/AIController.php:153-175 | the canned reflection belongs to the sentiment's pool |
| Suggestions.ReflectionPoolsDisjoint | backend-laravel/app/Http/Controllers/Api/AIController.php:155-171 | no sentence belongs to two sentiments' pools |
| Suggestions.PoolOf | backend-laravel/app/Http/Controllers/Api/AIController.php:155-171 | finds the pool a sentence belongs to, or reports that it belongs to none |
| Suggestions.ReflectionRevealsSentiment | backend-laravel/app/Http/Controllers/Api/AIController.php:173-174 | the canned reflection identifies the sentiment it was drawn for |
| Validation.RequiredStringMax | backend-laravel/app/Http/Controllers/Api/JournalController.php:38-39 | 'required + string + max:n' accepts exactly a non-blank string of at most n characters |
| Validation.SometimesRequiredStringMax | backend-laravel/app/Http/Controllers/Api/JournalController.php:70-71 | 'sometimes + required + string + max:n' additionally accepts an absent field, and nothing else |
| Validation.NullableStringIn | backend-laravel/app/Http/Controllers/Api/JournalController.php:40 | 'nullable + string + in:…' accepts exactly absent, null, blank, or a listed value |
| Validation.NullableString | backend-laravel/app/Http/Controllers/Api/JournalController.php:41 | 'nullable + string' rejects exactly the values that are neither null nor strings |
| Journals.StoreErrors | backend-laravel/app/Http/Controllers/Api/JournalController.php:37-42 | for each of the four fields, in the error set iff it breaks its rule, stated field by field |
| Journals.NullableValue | backend-laravel/app/Http/Controllers/Api/JournalController.php:47-48 | a field read from the request is its string when one was sent, and null otherwise |
| Journals.Store | backend-laravel/app/Http/Controllers/Api/JournalController.php:35-55 | store fails iff some field is invalid and then reports exactly those fields; otherwise the new row carries the request's title and content (non-empty, within 255 and 5000), the request's mood (listed, blank or null) and ai_response, the user, and both timestamps at the creation time |
| Journals.FormOnlyMoodsRejected | backend-laravel/app/Http/Controllers/Api/JournalController.php:40 | the moods confused, motivated and tired that the entry form offers are refused by store |
| Journals.UpdateErrors | backend-laravel/app/Http/Controllers/Api/JournalController.php:69-73 | absent title or content pass, present ones must be non-blank strings within the limit, mood as in store, ai_response is never an error |
| Journals.Whitelisted | backend-laravel/app/Http/Controllers/Api/JournalController.php:76 | only title, content and mood can differ from the row; each sent field takes the request's value (a null mood clears it), and each absent one keeps the row's |
| Journals.Update | backend-laravel/app/Http/Controllers/Api/JournalController.php:67-82 | on invalid input nothing is written and the bad fields are reported; otherwise only title, content and mood change (each only when sent), id, owner, ai_response and created_at are kept, and updated_at moves to now iff one of the three actually changed |
| Journals.EmptyUpdateIsNoOp | backend-laravel/app/Http/Controllers/Api/JournalController.php:76 | an update that sends none of the whitelisted fields leaves the row identical, updated_at included |
| Streak.CalculateStreak | backend-laravel/app/Http/Controllers/Api/JournalController.php:119-140 | the early-exit loop returns StreakOf(days, today) |
| Streak.NoEntryTodayNoStreak | backend-laravel/app/Http/Controllers/Api/JournalController.php:130-136 | without an entry today the streak is 0 |
| Streak.StreakAtMostEntries | backend-laravel/app/Http/Controllers/Api/JournalController.php:127-137 | the streak never exceeds the number of distinct entry dates |
| Streak.StreakCharacterized | backend-laravel/app/Http/Controllers/Api/JournalController.php:127-137 | the streak is k iff the first k dates are today, today−1, …, today−(k−1) and the next date, if any, breaks the chain |
| Streak.StreakIgnoresLaterDates | backend-laravel/app/Http/Controllers/Api/JournalController.php:134-136 | dates after the first one that breaks the chain never change the result |
| Streak.StreakCountsPresentDays | backend-laravel/app/Http/Controllers/Api/JournalController.php:121-137 | for descending dates none in the future, each of the last streak-many days up to today has an entry and the day before them has none |
| Analysis.HasKey | backend-laravel/app/Http/Controllers/Api/AIController.php:39 | PHP truthiness of the key: no key or the empty string is falsy, a one-character key is truthy unless it is "0", any longer key is truthy |
| Analysis.ProviderContent | backend-laravel/app/Http/Controllers/Api/AIController.php:43-74 | the provider's content is used iff there is a truthy key and the provider replied with content; an exception or a reply without content gives none |
| Analysis.MockAnalysis | backend-laravel/app/Http/Controllers/Api/AIController.php:88-101 | the local bundle carries the text's sentiment and keywords, a mood of its pool and a canned reflection of its pool |
| Analysis.PerformAIAnalysis | backend-laravel/app/Http/Controllers/Api/AIController.php:34-86 | sentiment and keywords are always computed locally and the mood is from the pool; with a key and a reply with content the reflection is that content, otherwise (no key, exception, no content) the result is the local bundle |
| Analysis.NoKeyNoProviderCall | backend-laravel/app/Http/Controllers/Api/AIController.php:39-41 | without a truthy key the provider cannot affect the result, and the reflection is canned |
| Analysis.ProviderAskedOnce | backend-laravel/app/Http/Controllers/Api/AIController.php:43-74 | the result depends on the provider only through its answer for this key and this text |
| Analysis.SuggestedMoodsAreStorable | backend-laravel/app/Http/Controllers/Api/AIController.php:143-147 | every mood the engine can suggest is accepted by the mood rule of store |
| Analysis.Respond | backend-laravel/app/Http/Controllers/Api/AIController.php:25-31 | the response echoes the text and exposes the bundle's reflection, label, keywords and mood |
| Analysis.AnalysisCache.Analyze | backend-laravel/app/Http/Controllers/Api/AIController.php:12-32 | invalid content (the rule 'required + string + max:5000') is refused and leaves the cache alone; a cached text returns its stored bundle unchanged; a new text stores performAIAnalysis's bundle and returns it |
| Analysis.AnalyzeKeepsValid | backend-laravel/app/Http/Controllers/Api/AIController.php:21-23 | every cached bundle keeps the sentiment and keywords of its text, so a response always does |
| Analysis.AnalyzeTwice | backend-laravel/app/Http/Controllers/Api/AIController.php:19-23 | analysing the same text twice gives identical responses even when the provider and the random picks differ |
| JournalList.Truthy | journal-frontend/src/hooks/useJournals.ts:20 | null and undefined are falsy, arrays and objects are truthy even when empty, a string is truthy iff non-empty |
| JournalList.Data | journal-frontend/src/hooks/useJournals.ts:20 | reading .data throws exactly on null and undefined, yields the field of an object that has one, and undefined from every other value |
| JournalList.Unwrap | journal-frontend/src/hooks/useJournals.ts:19-29 | the unwrapping throws exactly on a null or undefined body; it picks data.data.data when data.data and it are truthy, else data.data when truthy, else the body itself |
| JournalList.FetchedList | journal-frontend/src/hooks/useJournals.ts:34 | the fetched list is the unwrapped value exactly when that is an array, and empty when it is not |
| JournalList.PaginatedPageIsShown | journal-frontend/src/hooks/useJournals.ts:20-22 | the page of index's paginated body, under data.data, is what the list shows, even when it is empty |
| JournalList.DirectListIsShown | journal-frontend/src/hooks/useJournals.ts:23-25 | an array under data is shown |
| JournalList.BareListIsShown | journal-frontend/src/hooks/useJournals.ts:26-28 | a bare array is shown as it is |
| JournalList.RecordIsNotAList | journal-frontend/src/hooks/useJournals.ts:34 | a single record under data is not an array and yields the empty list |
| JournalList.ReplaceById | journal-frontend/src/hooks/useJournals.ts:71-75 | length and order are kept; entries with the id become the updated record, all others are unchanged |
| JournalList.RemoveById | journal-frontend/src/hooks/useJournals.ts:90 | no entry with the id is left, nothing is added, and a list without the id is unchanged |
| JournalList.RemoveKeepsOrder | journal-frontend/src/hooks/useJournals.ts:90 | filtering distributes over concatenation, so the kept entries keep their relative order |
| JournalList.RemoveKeepsOthers | journal-frontend/src/hooks/useJournals.ts:90 | an entry remains iff it was there and has another id |
| JournalList.RemoveKeepsCounts | journal-frontend/src/hooks/useJournals.ts:90 | every kept entry keeps its multiplicity |
| JournalList.RemoveIdempotent | journal-frontend/src/hooks/useJournals.ts:90 | deleting twice is deleting once |
| JournalList.DeleteUndoesCreate | journal-frontend/src/hooks/useJournals.ts:52 | deleting a journal just prepended, whose id was new, restores the list |
| JournalList.DeleteAfterUpdate | journal-frontend/src/hooks/useJournals.ts:71-75 | deleting after updating the same id gives what deleting alone gives |
| JournalList.UpdateKeepsIds | journal-frontend/src/hooks/useJournals.ts:71-75 | an update whose record keeps the id keeps every id in place and is idempotent |
| JournalList.Message | journal-frontend/src/hooks/useJournals.ts:38 | the error shown is the server's message when it sent a non-empty one, else the default text |
| JournalList.JournalsState.constructor | journal-frontend/src/hooks/useJournals.ts:6-8 | the hook starts with an empty list and no error |
| JournalList.JournalsState.FetchJournals | journal-frontend/src/hooks/useJournals.ts:10-42 | a received body replaces the list with the unwrapped array (or []) and clears the error; a rejection, or a body whose .data throws, sets the error and keeps the list |
| JournalList.JournalsState.CreateJournal | journal-frontend/src/hooks/useJournals.ts:50-53 | a created record goes to index 0, followed by the previous list unchanged |
| JournalList.JournalsState.UpdateJournal | journal-frontend/src/hooks/useJournals.ts:69-76 | a returned record replaces the entries with the id, as ReplaceById states |
| JournalList.JournalsState.DeleteJournal | journal-frontend/src/hooks/useJournals.ts:90 | the entries with the id are dropped, as RemoveById states |

## Left out

- The chat-completion request itself: the headers, the model name, `max_tokens`, the floating-point `temperature`, and JSON decoding. Its outcome is the `ProviderReply` given by a function parameter of the key and the text. The `referer` setting does not influence the result and is not modelled.
- `array_rand`: the index it returns is a parameter (`Rolls`), bounded by the pool size. The model does not claim a distribution.
- The cache's md5 key and its one-hour lifetime. The cache is a map keyed by the text itself, and entries never expire; md5 collisions and expiry are not modelled.
- Keywords.SortByCount: states sortedness by count and permutation. It does not state the order among equal counts. The function keeps that order, as PHP 8's stable `arsort` does, but earlier PHP versions leave it unspecified.
- `strtolower` and `str_word_count` are modelled for ASCII letters only. Locale-dependent and multibyte behaviour is not modelled.
- Concurrent requests: `Cache::remember` reads and writes the cache in two separate steps. Two concurrent misses on the same text both run performAIAnalysis, and the later write wins, so the first response can differ from later hits. `Analysis.AnalysisCache.Analyze` and `Analysis.AnalyzeTwice` cover calls made one after another only.
- Laravel's global middleware (`TrimStrings`, `ConvertEmptyStringsToNull`) is not modelled. The validator sees the raw value, so a blank mood passes the `in:` rule and is stored as given.
- A number, boolean or array sent for a field is one `NonString` value. The `max` rule on numbers and arrays is not modelled, because `string` rejects those values in every rule list here.
- Database work: authentication, `findOrFail` ownership scoping, and the SQL behind `calculateStreak`. For the streak's `DATE(created_at)` grouping and descending ordering, the dates are integer day numbers and today is a parameter. `Streak.StreakCountsPresentDays` takes distinct, descending dates as its precondition.
- Calendar dates and time zones: Carbon's `subDay` on date strings is `today - 1` on day numbers.
- The listing filters of `index`, and `show`, `destroy` and `stats` apart from the streak.
- On the client: `loading`, the `await`s, the refetch after every edit, logging, and the re-thrown errors of create, update and delete.
- The `response.data.data || response.data` pick in createJournal and updateJournal. Its result is a parameter: the record when the pick is truthy, none when it is falsy. A truthy pick that is not a journal record is not modelled. Likewise, a fetched array holds journal records, as the TypeScript types declare.
- JavaScript `NaN` and floating-point numbers in JSON are not modelled. Numbers are integers.
