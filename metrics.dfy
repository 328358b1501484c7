/** Surface metrics of a post (`analyzeTextMetrics` and
    `calculateReadabilityScore`, background.js:242-269). */
module Metrics {
  import opened Wrappers
  import opened Text

  /** The thresholds of background.js:249-251 and the readability formula of
      background.js:265-268. */
  const EMOJI_SHARE: real := 0.1
  const MAX_HASHTAGS: nat := 10
  const CAPS_SHARE: real := 0.3
  const EASY_SENTENCE: real := 15.0

  datatype TextMetrics = TextMetrics(
    wordCount: nat,
    sentenceCount: nat,
    uniqueWordRatio: Num,
    hasExcessiveEmojis: bool,
    hasExcessiveHashtags: bool,
    hasExcessiveCaps: bool,
    readabilityScore: real)

  /** `Math.max(0, Math.min(100, x))` on reals. */
  function ClampReal100(x: real): (c: real)
    ensures 0.0 <= c <= 100.0
    ensures 0.0 <= x <= 100.0 ==> c == x
  {
    if x < 0.0 then 0.0 else if x > 100.0 then 100.0 else x
  }

  /** `calculateReadabilityScore(words, sentences)` on the two counts. */
  function Readability(wordCount: nat, sentenceCount: nat): real {
    if sentenceCount == 0 then 0.0
    else ClampReal100(100.0 - (wordCount as real / sentenceCount as real - EASY_SENTENCE) * 2.0)
  }

  /** The emoji blocks of the pattern at background.js:248. */
  predicate IsEmoji(c: char) {
    var n := c as int;
    (0x1F600 <= n <= 0x1F64F) || (0x1F300 <= n <= 0x1F5FF)
    || (0x1F680 <= n <= 0x1F6FF) || (0x1F1E0 <= n <= 0x1F1FF)
  }

  /** How many characters of `s` satisfy `p` (a global match of a
      one-character class; with the `u` flag a character is a code point). */
  function CountWhere(s: string, p: char -> bool): (n: nat)
    ensures n <= |s|
  {
    if s == [] then 0 else (if p(s[0]) then 1 else 0) + CountWhere(s[1..], p)
  }

  /** The number of matches of `/#\w+/g`: each `#` followed by a word
      character starts one, and a match never contains another `#`. */
  function Hashtags(s: string): nat {
    if |s| < 2 then 0
    else (if s[0] == '#' && IsWordChar(s[1]) then 1 else 0) + Hashtags(s[1..])
  }

  /** `new Set(words.map(w => w.toLowerCase()))`. */
  function LowerSet(words: seq<string>): set<string> {
    set i | 0 <= i < |words| :: Lower(words[i])
  }

  /** `text.match(/[A-Z]/g)?.length > text.length * 0.3`: without a match
      the left side is `undefined` and the comparison is false. */
  function ExcessiveCaps(text: string): bool {
    var caps := CountWhere(text, IsUpper);
    if caps == 0 then false else caps as real > |Utf16(text)| as real * CAPS_SHARE
  }

  /** `analyzeTextMetrics(text)`. */
  function AnalyzeTextMetrics(text: string): TextMetrics {
    var words := Words(text);
    var sentences := Sentences(text);
    var unique := LowerSet(words);
    LowerSetBounds(words);
    TextMetrics(
      |words|,
      |sentences|,
      Quotient(|unique|, |words|),
      CountWhere(text, IsEmoji) as real > |words| as real * EMOJI_SHARE,
      Hashtags(text) > MAX_HASHTAGS,
      ExcessiveCaps(text),
      Readability(|words|, |sentences|))
  }

  lemma {:induction false} LowerSetBounds(words: seq<string>)
    ensures |LowerSet(words)| <= |words|
    ensures words != [] ==> |LowerSet(words)| >= 1
  {
    if words != [] {
      var rest := words[1..];
      LowerSetBounds(rest);
      assert LowerSet(words) == {Lower(words[0])} + LowerSet(rest) by {
        forall x ensures x in LowerSet(words) <==> x == Lower(words[0]) || x in LowerSet(rest) {
          if x in LowerSet(words) {
            var i :| 0 <= i < |words| && Lower(words[i]) == x;
            if i > 0 { assert Lower(rest[i - 1]) == x; }
          }
          if x in LowerSet(rest) {
            var i :| 0 <= i < |rest| && Lower(rest[i]) == x;
            assert Lower(words[i + 1]) == x;
          }
        }
      }
      assert Lower(words[0]) in LowerSet(words);
    }
  }

  /** The readability score lies in [0, 100]; it is 0 without sentences and
      otherwise `100 - 2 * (average - 15)`, clamped (background.js:264-269). */
  lemma ReadabilitySpec(wordCount: nat, sentenceCount: nat)
    ensures 0.0 <= Readability(wordCount, sentenceCount) <= 100.0
    ensures sentenceCount == 0 ==> Readability(wordCount, sentenceCount) == 0.0
    ensures sentenceCount > 0 && wordCount as real <= EASY_SENTENCE * sentenceCount as real
            ==> Readability(wordCount, sentenceCount) == 100.0
    ensures sentenceCount > 0 && wordCount as real >= 65.0 * sentenceCount as real
            ==> Readability(wordCount, sentenceCount) == 0.0
    ensures sentenceCount > 0 && EASY_SENTENCE * sentenceCount as real <= wordCount as real <= 65.0 * sentenceCount as real
            ==> Readability(wordCount, sentenceCount)
                == 100.0 - (wordCount as real / sentenceCount as real - EASY_SENTENCE) * 2.0
  {
    if sentenceCount > 0 {
      var avg := wordCount as real / sentenceCount as real;
      AverageBounds(wordCount as real, sentenceCount as real, EASY_SENTENCE);
      AverageBounds(wordCount as real, sentenceCount as real, 65.0);
    }
  }

  lemma AverageBounds(w: real, s: real, k: real)
    requires s > 0.0
    ensures w <= k * s <==> w / s <= k
    ensures w >= k * s <==> w / s >= k
  {
    assert w == (w / s) * s;
  }

  /** Longer sentences never read more easily: the score does not grow with
      the number of words for a fixed number of sentences. */
  lemma ReadabilityMonotone(w1: nat, w2: nat, sentenceCount: nat)
    requires w1 <= w2
    ensures Readability(w2, sentenceCount) <= Readability(w1, sentenceCount)
  {
    if sentenceCount > 0 {
      var s := sentenceCount as real;
      assert w1 as real / s <= w2 as real / s by {
        assert w2 as real / s - w1 as real / s == (w2 - w1) as real / s;
      }
    }
  }

  /** Of the metrics: the unique-word ratio is a number in (0, 1] when the
      text has words and 0/0 when it has none; a text with sentences has
      words; a text without words scores 0 for readability
      (background.js:242-262). */
  lemma MetricsSpec(text: string)
    ensures AnalyzeTextMetrics(text).wordCount == |Words(text)|
    ensures AnalyzeTextMetrics(text).sentenceCount == |Sentences(text)|
    ensures AnalyzeTextMetrics(text).wordCount > 0 ==>
              && AnalyzeTextMetrics(text).uniqueWordRatio.Finite?
              && 0.0 < AnalyzeTextMetrics(text).uniqueWordRatio.r <= 1.0
    ensures AnalyzeTextMetrics(text).wordCount == 0 ==> AnalyzeTextMetrics(text).uniqueWordRatio.NaN?
    ensures AnalyzeTextMetrics(text).sentenceCount > 0 ==> AnalyzeTextMetrics(text).wordCount > 0
    ensures AnalyzeTextMetrics(text).wordCount == 0 ==> AnalyzeTextMetrics(text).readabilityScore == 0.0
    ensures 0.0 <= AnalyzeTextMetrics(text).readabilityScore <= 100.0
  {
    var words := Words(text);
    LowerSetBounds(words);
    if words == [] {
      NoWordsNoSentences(text);
    }
    ReadabilitySpec(|words|, |Sentences(text)|);
  }

  /** Upper-case letters are counted against the length in UTF-16 code
      units: a text whose letters are all capitals and that is mostly
      letters is flagged, and a text without capitals never is. */
  lemma CapsSpec(text: string)
    ensures CountWhere(text, IsUpper) == 0 ==> !ExcessiveCaps(text)
    ensures (forall i :: 0 <= i < |text| ==> IsUpper(text[i])) && text != [] ==> ExcessiveCaps(text)
  {
    if text != [] && forall i :: 0 <= i < |text| ==> IsUpper(text[i]) {
      AllCounted(text, IsUpper);
      AsciiUnits(text);
    }
  }

  lemma {:induction false} AllCounted(s: string, p: char -> bool)
    requires forall i :: 0 <= i < |s| ==> p(s[i])
    ensures CountWhere(s, p) == |s|
  {
    if s != [] {
      AllCounted(s[1..], p);
    }
  }

  lemma {:induction false} AsciiUnits(s: string)
    requires forall i :: 0 <= i < |s| ==> IsUpper(s[i])
    ensures |Utf16(s)| == |s|
  {
    if s != [] {
      AsciiUnits(s[1..]);
    }
  }

  /** Hashtags are counted by their `#`: a text with no `#` has none, and
      there are never more than half as many as characters. */
  lemma {:induction false} HashtagsSpec(s: string)
    ensures '#' !in s ==> Hashtags(s) == 0
    ensures Hashtags(s) <= (|s| + 1) / 2
  {
    if |s| >= 2 {
      HashtagsSpec(s[1..]);
      if s[0] == '#' && IsWordChar(s[1]) {
        HashtagsSpec(s[2..]);
        assert s[1..][1..] == s[2..];
        assert Hashtags(s[1..]) == Hashtags(s[2..]);
      }
    }
  }
}
