# Originality scoring engine of the LinkedIn Originality Checker, in Dafny

This project models the text-scoring core of the `OriginalityAnalyzer`
background script (`background.js`) of the LinkedIn Originality Checker
browser extension, and proves properties of it with Dafny 4.11.

The model covers five parts of that class:

- **Normalisation and key phrases** (`text.dfy`, `phrases.dfy`). The
  normaliser lower-cases, deletes every character that is neither `\w` nor
  `\s`, collapses white space and trims. `extractKeyPhrases` returns every
  window of three, four or five consecutive words, without repetitions, in
  order of first appearance. It is written twice: as the specification
  function `KeyPhrases` and as the imperative method `ExtractKeyPhrases`,
  which pushes onto a list in nested loops and then removes repetitions
  with a seen-set. The method is proved equal to the function. Because the
  normaliser deletes `.`, `!` and `?`, the later "sentence" split of a
  normalised text yields no sentence or exactly one: the whole text.
- **Pairwise similarity** (`similarity.dfy`). `calculateDetailedSimilarity`
  is one function built from its four signals: the exact-sentence flag, the
  phrase-intersection count, the word-set overlap and the raw-length ratio.
  The weights are those of the code: 0.4, 0.3, 0.2 and 0.1. JavaScript
  numbers are exact reals plus `NaN` (`Wrappers.Num`). The two unguarded
  divisions turn `0/0` into `NaN`, and `NaN` then propagates.
- **Ranking and scoring** (`ranking.dfy`, `metrics.dfy`, `scoring.dfy`).
  - `calculateSimilarities` scores each candidate with
    `Math.round(100 * overall)` and sorts the list with a stable sort,
    most similar first.
  - `analyzeTextMetrics` and `calculateReadabilityScore` compute the surface
    metrics of a post.
  - `calculateOriginalityScore` is a specification function on JavaScript
    numbers plus an imperative method that subtracts the penalties from a
    running score, proved equal to it. The score is `NaN` exactly when a
    percentage is `NaN`; otherwise it is the integer score of the ranked
    matches.
  - The first sentence of `generateAnalysisSummary` picks one of four bands
    from the score.
- **Cache key** (`cachekey.dfy`). `generateCacheKey` is a loop that folds
  the UTF-16 code units of the lower-cased, trimmed text into a signed
  32-bit hash. The hash is proved to be the base-31 polynomial of the code
  units reduced to int32, and the key `post_<decimal>` is proved to
  determine the hash.
- **Stateful guards** (`engine.dfy`). The class `Analyzer` holds the
  request times of the rate limiter (`seq<int>`) and the result cache
  (`map`).
  - `CheckRateLimit` is the sliding-window admission check; a refusal is a
    returned flag rather than a thrown error.
  - `CleanCache` is the time-to-live sweep.
  - `AnalyzePost` is the rate-check, then cache lookup, then compute shape of
    `analyzePost`.

  The clock is the parameter `now`. The analysis pipeline is the function
  parameter `perform`; it returns `None` where `performAnalysis` throws.

`storage.dfy` models two list helpers of the storage-backed search:
remembering a post once per URL, and picking at most five stored posts by
similarity band.

Character classes follow JavaScript regular expressions without the `u`
flag. `\w` is `[A-Za-z0-9_]`. `\s` is the exact set of white-space and
line-terminator characters that `trim` also strips. Lengths (`text.length`)
and `charCodeAt` count UTF-16 code units, so a character above U+FFFF
counts twice.

Three facts of the code shape the model:

- A ratio whose denominator is 0 is `NaN`; no ratio has a fallback. A post
  without words has a unique-word ratio of `0/0`, and two texts with fewer
  than three words each have a phrase ratio of `0/0`.
- A `NaN` overall similarity makes its percentage and then the originality
  score `NaN`. The summary then opens with the last band, and the message
  listener sends 0.
- Cached results carry no timestamp, so they never expire (see Findings).

## Model

| member | source | states |
|---|---|---|
| Wrappers.Quotient | background.js:420-421 | A JavaScript quotient of two counts `a <= b`: NaN exactly when `b` is 0, otherwise a ratio in [0, 1] that is 1 when `a == b`. |
| Wrappers.Round | background.js:571 | `Math.round` is the integer within half of its argument, with halves rounded up. |
| Wrappers.Clamp100 | background.js:607 | `Math.max(0, Math.min(100, n))` lies in [0, 100] and leaves values in that range unchanged. |
| Text.LowerChar | background.js:360 | Lower-casing adds 32 to the code of a capital and leaves every other character alone; the result is never a capital and keeps the character's word and white-space class. |
| Text.Lower | background.js:388 | `toLowerCase` maps every character and keeps the length. |
| Text.RemoveNonWord | background.js:389 | `.replace(/[^\w\s]/g, '')` keeps only characters of the input that are word characters or white space, and leaves a text made only of such characters unchanged. |
| Text.RemoveNonWordAppend | background.js:389 | The removal keeps the order: the result for a concatenation is the concatenation of the results. |
| Text.RemoveNonWordChar | background.js:389 | A word or white-space character survives alone; any other character leaves nothing. |
| Text.TrimStart | background.js:391 | Leading white space is removed and nothing else: all removed characters are white space and the result does not start with one. |
| Text.TrimStartSuffix | background.js:391 | What remains after removing leading white space is a suffix of the input. |
| Text.TrimEnd | background.js:391 | Trailing white space is removed and nothing else: the result is a prefix that does not end with white space. |
| Text.Trim | background.js:391 | `trim()` leaves no white space at either end. |
| Text.NormalizeIsNormal | background.js:387-392 | Every normalised text consists of lower-case word characters separated by single blanks, with none at either end. |
| Text.NormalizeIdempotent | background.js:387-392 | Normalising a normalised text changes nothing. |
| Text.CollapseWithoutSpace | background.js:390 | Collapsing white space changes nothing in a text without white space. |
| Text.NormalizeWithoutSpace | background.js:387-392 | A text without white space normalises to a text without white space. |
| Text.Split | background.js:371 | `split` with a one-character separator always yields at least one piece, and no piece contains a separator. |
| Text.JoinSplit | background.js:371-373 | Splitting on blanks and joining with a blank gives the text back. |
| Text.NormalSentences | background.js:398-399 | The sentence split of a normalised text yields no sentence for the empty text and exactly the whole text otherwise. |
| Text.NoWordsNoSentences | background.js:243-244 | A text without words has no sentences either. |
| Text.Utf16 | background.js:420 | The UTF-16 form of a string has between one and two code units per character, each below 0x10000. |
| Phrases.Dedupe | background.js:383 | `Array.from(new Set(xs))` has no repetitions and exactly the elements of `xs`. |
| Phrases.WindowsMembers | background.js:372-380 | The first `k` iterations of the window loop push exactly the 3-, 4- and 5-word windows that start before `k`. |
| Phrases.StepPhrasesMembers | background.js:373-379 | One iteration pushes exactly the windows of three to five words that start at its index and fit. |
| Phrases.SentencePhrasesMembers | background.js:370-381 | The phrases of one sentence are exactly its 3-, 4- and 5-word windows. |
| Phrases.KeyPhrasesAreWindows | background.js:358-384 | `extractKeyPhrases` has no repetitions, and its elements are exactly the 3-, 4- and 5-word windows of the normalised text. |
| Phrases.KeyPhrasesOfNormal | background.js:407-408 | Extracting the phrases of an already normalised text gives the phrases of the raw text. |
| Phrases.KeyPhrasesNonEmpty | background.js:372 | There is a key phrase exactly when the normalised text has at least three words. |
| Phrases.OneWordWithoutSpace | background.js:387-415 | A text without white space has at most one normalised word. |
| Phrases.PushSentencePhrases | background.js:371-380 | The nested loop pushes exactly the phrase list of the sentence. |
| Phrases.RemoveRepeats | background.js:383 | The seen-set loop keeps exactly the first occurrences. |
| Phrases.ExtractKeyPhrases | background.js:358-384 | The imperative extraction returns the specified phrase list, which has no repetitions and holds exactly the 3-5-word windows. |
| Similarity.CountMatched | background.js:402-404 | The number of matched sentences never exceeds the number of sentences. |
| Similarity.CountIn | background.js:409-411 | The number of matched phrases never exceeds the number of phrases. |
| Similarity.WordSet | background.js:414-415 | The word set of a normalised text is never empty (`split` yields at least one piece). |
| Similarity.WordRatio | background.js:416-417 | The common-word share lies in [0, 1] and is 1 for equal word sets. |
| Similarity.CountInIsIntersection | background.js:409-411 | Counting the phrases of a repetition-free list found in another list counts the intersection of the two phrase sets. |
| Similarity.SentenceMatchesFlag | background.js:387-404 | `sentenceMatches` is 1 exactly when both normalised texts are equal and not empty, and 0 otherwise. |
| Similarity.PhraseMatchesIsIntersection | background.js:406-411 | `phraseMatches` is the size of the intersection of the two key-phrase sets. |
| Similarity.Symmetric | background.js:386-438 | Every field of the detailed similarity is unchanged when the two texts are swapped. |
| Similarity.CombineInUnitRange | background.js:424-429 | The weighted sum of signals in [0, 1] lies in [0, 1]. |
| Similarity.Bounds | background.js:417-429 | `sentenceMatches` is at most 1; `phraseMatches` is at most the larger phrase count; word, length and overall similarity lie in [0, 1] when they are numbers. |
| Similarity.LengthDefined | background.js:420-421 | The length ratio is NaN exactly when both texts are empty. |
| Similarity.DefinedWithPhrases | background.js:420-426 | The overall similarity is a number exactly when at least one text has three or more normalised words. |
| Similarity.SelfSimilarity | background.js:402-429 | A text of three or more words has overall similarity exactly 1 with itself. |
| Ranking.Percent | background.js:571 | `Math.round(overall * 100)` of a ratio in [0, 1] lies in [0, 100], within half of `100 * overall`. |
| Ranking.OverallsBounded | background.js:567-568 | Each of them lies in [0, 1] when it is a number. |
| Ranking.ScoreEachSpec | background.js:567-572 | The map keeps the candidates in order and gives each `round(100 * overall)`; it is defined exactly when no similarity is NaN. |
| Ranking.InsertPermutes | background.js:573 | Inserting adds exactly the inserted match. |
| Ranking.InsertMembers | background.js:573 | After inserting, the list holds exactly the inserted match and the earlier elements. |
| Ranking.InsertSorted | background.js:573 | Inserting into a list sorted by non-increasing similarity keeps it sorted. |
| Ranking.InsertStable | background.js:573 | Inserting puts the match at the front of its own similarity class and leaves every other class unchanged. |
| Ranking.SortPermutes | background.js:573 | The sort returns a permutation of its input. |
| Ranking.SortSorted | background.js:573 | The sort returns its input in non-increasing order of similarity. |
| Ranking.SortStable | background.js:573 | The sort keeps the input order among matches of equal similarity. |
| Ranking.SortSpec | background.js:573 | The sort returns a permutation of its input, in non-increasing order of similarity, that keeps the input order among equal similarities. |
| Ranking.RankSpec | background.js:566-574 | Ranking answers exactly when no similarity is NaN; it then returns the scored candidates permuted, sorted, stable, each with `round(100 * overall)` in [0, 100]. |
| Ranking.CalculateSimilaritiesSpec | background.js:566-574 | `calculateSimilarities` is defined exactly when no detailed similarity is NaN. It then gives each candidate, in search order, `round(100 * overall)` of its detailed similarity, in [0, 100], and returns that list permuted into non-increasing order, equal percentages keeping their search order. |
| Metrics.ClampReal100 | background.js:268 | The readability clamp lies in [0, 100] and leaves values in that range unchanged. |
| Metrics.CountWhere | background.js:249-251 | A global match of a one-character class finds at most as many matches as characters. |
| Metrics.LowerSetBounds | background.js:245 | The set of lower-cased words has at most as many elements as there are words, and at least one when there is a word. |
| Metrics.AverageBounds | background.js:266 | The average of words per sentence is at most (at least) `k` exactly when the words are at most (at least) `k` times the sentences. |
| Metrics.ReadabilitySpec | background.js:264-269 | Readability lies in [0, 100]: it is 0 without sentences, 100 up to 15 words per sentence, 0 from 65 words per sentence, and `100 - 2 * (average - 15)` between the two. |
| Metrics.ReadabilityMonotone | background.js:264-269 | More words over the same sentences never raise the readability score. |
| Metrics.MetricsSpec | background.js:242-262 | The unique-word ratio is a number in (0, 1] when there are words and NaN when there are none; a text with sentences has words; readability is 0 without words and always in [0, 100]. |
| Metrics.CapsSpec | background.js:251 | A text without capitals is never flagged; a non-empty text of capitals only always is. |
| Metrics.HashtagsSpec | background.js:250 | Without `#` there is no hashtag, and there are never more hashtags than half the characters, rounded up. |
| Scoring.MaxSimilarity | background.js:583 | `Math.max` of the similarities is one of them and at least every other. |
| Scoring.OriginalityScore | background.js:576-608 | The score of integer percentages is an integer in [0, 100]. |
| Scoring.MaxNum | background.js:583 | `Math.max` over JavaScript numbers is NaN exactly when one of them is NaN; otherwise it is one of them and at least every other. |
| Scoring.ScoreOf | background.js:576-608 | The score is NaN exactly when one of the percentages is NaN, and otherwise lies in [0, 100]. |
| Scoring.CalculateOriginalityScore | background.js:576-608 | The imperative running-score computation returns the specified score. |
| Scoring.DeductMetrics | background.js:589-604 | The metric deductions, taken in turn, take off exactly the sum of the metric penalties, and leave a score NaN exactly when it was NaN. |
| Scoring.MaxOfMatches | background.js:583 | On integer percentages `Math.max` is the largest percentage. |
| Scoring.ScoreOfMatches | background.js:576-608 | On integer percentages the score is the integer score of the matches. |
| Scoring.MaxNumSameElements | background.js:583 | `Math.max` gives the same result for two lists holding the same numbers, whatever their order. |
| Scoring.SameSimilarities | background.js:573 | Two lists holding the same matches hold the same percentages. |
| Scoring.RankedPercentages | background.js:566-574 | The ranked matches carry exactly the percentages of the candidates. |
| Scoring.RankedScore | background.js:219-224 | The score of the ranked candidates is NaN exactly when an overall similarity is NaN, and otherwise is the integer score of the sorted matches. |
| Scoring.AnalysisScore | background.js:219-224 | For a post and its search results the score is NaN exactly when the post and one result both have fewer than three words; otherwise it is the integer score of the list `calculateSimilarities` returns. |
| Scoring.ReportedScore | background.js:118 | The listener always sends a number: NaN becomes 0 and every number is sent unchanged. |
| Scoring.OneWordPostScoresNaN | background.js:219-224 | A post and a result without white space give a NaN score, the "Significant similarities" band and a sent score of 0. |
| Scoring.CongratsScoresNaN | background.js:219-224 | "Congrats" checked against "congrats!" scores NaN. |
| Scoring.MetricsPenaltyNonNegative | background.js:589-604 | No metric penalty adds points. |
| Scoring.ScoreMonotone | background.js:607 | Rounding and clamping never reorder two running scores. |
| Scoring.NoEvidenceIsOriginal | background.js:578-607 | With no matches and no metrics the score is 100. |
| Scoring.MetricsOnlyLower | background.js:589-604 | Adding metrics never raises the score. |
| Scoring.FlagsOnlyLower | background.js:596-603 | Raising a formatting flag or lowering readability never raises the score. |
| Scoring.AnyMatchZeroes | background.js:581-586 | As written, any match of 2 % or more gives score 0, whatever the metrics. |
| Scoring.TwoPercentScoresZero | background.js:583-586 | As written, a single 2 % match scores 0. |
| Scoring.IntendedOriginalityScore | background.js:583-586 | With the percentage scaled back to a fraction, the score still lies in [0, 100]. |
| Scoring.IntendedAtMostSixty | background.js:583-586 | With that scaling, matches alone take off at most 60 points: the score lies in [40, 100] without metrics. |
| Scoring.IntendedMonotone | background.js:583-586 | With that scaling, a more similar top match never raises the score. |
| Scoring.TwoPercentScoresNinetyNine | background.js:583-586 | With that scaling, a single 2 % match scores 99. |
| Scoring.BandMonotone | background.js:22-30 | A higher score never gets a less favourable summary band, and NaN gets the least favourable one. |
| Scoring.AnyMatchIsSignificant | background.js:22-30 | As written, a post with any match of 2 % or more is reported as significantly similar. |
| CacheKeys.Wrap32 | background.js:763 | `hash & hash` gives the signed 32-bit integer congruent to its argument modulo 2^32. |
| CacheKeys.Digits | background.js:765 | The decimal digits of a number are a non-empty string of `0`-`9`. |
| CacheKeys.GenerateCacheKey | background.js:756-766 | The hashing loop returns the specified key. |
| CacheKeys.WrapShift | background.js:763 | Wrapping ignores multiples of 2^32. |
| CacheKeys.WrapCongruent | background.js:763 | Numbers congruent modulo 2^32 wrap to the same int32. |
| CacheKeys.HashStepIsPolynomialStep | background.js:762-763 | One iteration computes `31 * hash + unit` reduced to int32. |
| CacheKeys.HashIsPolynomial | background.js:758-765 | The hash is the base-31 polynomial of the code units reduced to int32, so it lies in the int32 range. |
| CacheKeys.DigitsRoundTrip | background.js:765 | Reading the digits of a number back gives the number. |
| CacheKeys.DecimalRoundTrip | background.js:765 | Reading the decimal form of an integer back gives the integer. |
| CacheKeys.SameKeySameHash | background.js:756-766 | Two texts share a cache key exactly when their hashes are equal. |
| CacheKeys.LowerTrimStart | background.js:758 | Lower-casing and removing leading white space commute. |
| CacheKeys.LowerTrimEnd | background.js:758 | Lower-casing and removing trailing white space commute. |
| CacheKeys.KeyIgnoresCaseAndOuterSpace | background.js:758 | The key of a text is the key of its lower-cased form and of its trimmed form. |
| CacheKeys.HashOfPair | background.js:758-764 | The hash of a two-character text without capitals or outer white space is `31 * c0 + c1`, wrapped. |
| CacheKeys.KeysCollide | background.js:756-766 | Two different normalised texts, "1!" and "0@", get the same key. |
| Engine.Recent | background.js:149 | The filtered request list keeps exactly the times inside the last minute, each as many times as it was recorded. |
| Engine.RateLimit | background.js:144-158 | A call is admitted exactly when fewer than 10 requests remain in the window; the window then gains exactly `now`; a refusal only drops old times; the window never grows past 10. |
| Engine.Analyzer.constructor | background.js:6-16 | A new analyzer has no recorded requests and an empty cache. |
| Engine.Analyzer.CheckRateLimit | background.js:144-158 | The method makes the decision and leaves the request list of `RateLimit`, keeps the limit invariant and does not touch the cache. |
| Engine.Analyzer.CleanCache | background.js:71-78 | Deleting while iterating over the keys leaves exactly the swept cache and does not touch the limiter. |
| Engine.Analyzer.AnalyzePost | background.js:160-197 | The rate check runs first, so cache hits also use a slot. A refused call returns the rate-limit reply and leaves the cache alone. A hit returns the cached result. A miss stores the computed result without a timestamp. A failure stores nothing. |
| Engine.Analyzer.AnalyzePostStamped | background.js:160-197 | The same, but the stored result carries the time it was computed. |
| Engine.Run | background.js:144-158 | Successive rate checks give one decision per call. |
| Engine.RecentKeepsAll | background.js:149 | Filtering keeps every time inside the window. |
| Engine.BurstAdmitsUpToLimit | background.js:144-158 | Calls that all fall within one minute of each other are admitted exactly while fewer than 10 requests are on record. |
| Engine.TenPerMinute | background.js:144-158 | From a fresh limiter, ten calls within a minute are admitted and the eleventh is refused. |
| Engine.QuietMinuteResets | background.js:144-158 | After a minute without requests the call is admitted and only its time is kept. |
| Engine.RecentEmpty | background.js:149 | Filtering drops every time older than the window. |
| Engine.RecentDropsStale | background.js:149 | A time older than the window is dropped, so the list gets shorter. |
| Engine.SlotFreedWhenOneLeaves | background.js:144-158 | A full limiter admits again as soon as one recorded request is more than a minute old. |
| Engine.UnstampedNeverExpire | background.js:71-78 | An entry without a timestamp, as `analyzePost` stores it, survives every sweep. |
| Engine.StampedExpireAfterADay | background.js:71-78 | An entry with a timestamp survives the sweep exactly while it is at most a day old. |
| Storage.RememberPostSpec | background.js:327-331 | Remembering keeps URLs distinct, makes the URL known, and is idempotent. |
| Storage.AboveThreshold | background.js:501 | Exactly the posts whose similarity is a number above 0.3 remain, with that similarity. |
| Storage.AboveThresholdAppend | background.js:501 | The filter keeps the input order: the result for a concatenation is the concatenation of the results. |
| Storage.Where | background.js:505-507 | A band filter keeps exactly the posts of the input in that band. |
| Storage.WhereAppend | background.js:505-507 | A band filter keeps the input order: the result for a concatenation is the concatenation of the results. |
| Storage.Take | background.js:512-514 | `slice(0, n)` is the prefix of the input of length `min(n, length)`. |
| Storage.SelectSimilarSpec | background.js:505-514 | Exactly `min(5, high + min(2, medium) + min(1, low))` posts, all from the input. The high-similarity posts come first, in order. The medium and low posts are prefixes of their bands, at most two and one. |
| Storage.BucketPrefix | background.js:510-514 | A prefix of the joined buckets holds, of the medium (low) band, a prefix of the medium (low) bucket. |

## Left out

- Chrome messaging, the 15-second timeout, progress messages and the global
  error hooks (background.js:52-142, 199-240) are I/O and event plumbing.
  `performAnalysis` is the parameter `perform` of `AnalyzePost`.
- `searchSimilarContent`, `searchLinkedInPosts`, `searchWebForSimilarContent`,
  `searchCachedContent` and `generateMockSearchResults` read `chrome.storage`,
  tabs, the DOM and the network. Only the URL check before storing a post
  (background.js:327-331) and the band selection (background.js:491-514) are
  modelled, as pure helpers.
- Storage.SelectSimilarSpec: the descending sort at background.js:502 is not
  modelled; the selection is stated for any input order.
- `generateSimilarText` uses `Math.random`. `performAIAnalysis` is a constant
  stub.
- The text of `generateAnalysisSummary` is not modelled, only the band its
  first sentence picks. That leaves out the string building and the
  `toFixed(1)` float formatting.
- Numbers are exact reals. The model ignores floating-point rounding in the
  weighted sum and in the penalty arithmetic. Integer percentages and the
  32-bit hash are exact.
- Similarity.SelfSimilarity: the overall similarity is exactly 1 over the
  reals; in doubles 0.4 + 0.3 + 0.2 + 0.1 is 0.9999999999999999. Its
  percentage is 100 either way.
- `toLowerCase` is modelled on ASCII letters only, and the emoji blocks are
  code-point ranges. Strings are sequences of Unicode scalar values, so lone
  surrogates cannot occur.
- Ranking.CalculateSimilaritiesSpec: when an overall similarity is NaN, the
  comparator of the sort is inconsistent and the order is not determined by
  the language. The model returns `None` then instead of an order. The
  score does not depend on that order (Scoring.RankedScore).
- Engine.Analyzer.AnalyzePost: each call is modelled as running to
  completion without interleaving. The awaits at background.js:164 and
  background.js:174 let two calls on one key both miss the cache and both
  run `performAnalysis`; the later `cache.set` wins.
- Engine.Analyzer.AnalyzePost: the thrown rate-limit error and the two error
  objects are the replies `RateLimited` and `TechnicalError`. Their message
  strings and `originalityScore: 0` are not modelled as fields.
- The invalid-request check of the message listener (background.js:84-94) is
  plumbing around `analyzePost`.
- `MAX_RESULTS` and `MIN_SIMILARITY_THRESHOLD` (background.js:11-12) are
  declared but never read. `cleanCache` is defined but never called.

## Findings

| source | as written | input that shows it | evidently intended | confidence | as-written member | corrected member |
|---|---|---|---|---|---|---|
| background.js:583-586 | `score -= maxSimilarity * 60`, where `maxSimilarity` is already an integer percentage (background.js:571) | one match with similarity 2 (2 %): score 100 - 120 clamps to 0 | deduct "up to 60 points": `maxSimilarity / 100 * 60`, giving 99 for that match | high, not executed | Scoring.TwoPercentScoresZero | Scoring.IntendedOriginalityScore |
| background.js:71-78, 177 | `analyzePost` caches the bare result, which has no `timestamp`; `cleanCache` compares `now - value.timestamp` (NaN) with the duration, which is always false | any cached post and any later `now`, even a year later: the entry survives `cleanCache` | store the time of computation, so that entries expire after `CACHE_DURATION` (24 h) | medium, not executed | Engine.UnstampedNeverExpire | Engine.Analyzer.AnalyzePostStamped |
