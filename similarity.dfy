/** Pairwise similarity of two texts (`calculateDetailedSimilarity`,
    background.js:386-438). */
module Similarity {
  import opened Wrappers
  import opened Text
  import opened Phrases

  /** The weights of background.js:425-428. */
  const SENTENCE_WEIGHT: real := 0.4
  const PHRASE_WEIGHT: real := 0.3
  const WORD_WEIGHT: real := 0.2
  const LENGTH_WEIGHT: real := 0.1

  datatype SimilarityResult = SimilarityResult(
    overallSimilarity: Num,
    sentenceMatches: nat,
    phraseMatches: nat,
    wordSimilarity: real,
    lengthSimilarity: Num)

  function ElemSet(s: seq<string>): set<string> {
    set x | x in s
  }

  /** `sentences1.filter(s1 => sentences2.some(s2 => s2.trim() === s1.trim())).length`. */
  function CountMatched(s1: seq<string>, s2: seq<string>): (n: nat)
    ensures n <= |s1|
  {
    if s1 == [] then 0
    else (if SomeTrimmedEqual(s2, s1[0]) then 1 else 0) + CountMatched(s1[1..], s2)
  }

  /** `sentences2.some(s2 => s2.trim() === s1.trim())`. */
  predicate SomeTrimmedEqual(s2: seq<string>, s1: string) {
    s2 != [] && (Trim(s2[0]) == Trim(s1) || SomeTrimmedEqual(s2[1..], s1))
  }

  /** `phrases1.filter(p1 => phrases2.includes(p1)).length`. */
  function CountIn(p1: seq<string>, p2: seq<string>): (n: nat)
    ensures n <= |p1|
  {
    if p1 == [] then 0 else (if p1[0] in p2 then 1 else 0) + CountIn(p1[1..], p2)
  }

  /** `new Set(normalized.split(' '))`: never empty, since `split` always
      yields at least one piece (the empty string for an empty text). */
  function WordSet(n: string): (w: set<string>)
    ensures |w| >= 1
  {
    var pieces := Split(n, IsBlank);
    var w := ElemSet(pieces);
    assert pieces[0] in w;
    w
  }

  /** `commonWords.size / Math.max(words1.size, words2.size)` (background.js:414-417). */
  function WordSimilarity(n1: string, n2: string): real {
    WordRatio(WordSet(n1), WordSet(n2))
  }

  /** The share of common words: a ratio in [0, 1] that is 1 for equal sets. */
  function WordRatio(w1: set<string>, w2: set<string>): (r: real)
    requires |w1| >= 1 && |w2| >= 1
    ensures 0.0 <= r <= 1.0
    ensures w1 == w2 ==> r == 1.0
  {
    SubsetCard(w1 * w2, w1);
    assert w1 == w2 ==> w1 * w2 == w1;
    Quotient(|w1 * w2|, Max(|w1|, |w2|)).r
  }

  /** `Math.min(l1, l2) / Math.max(l1, l2)` over the raw lengths (background.js:420-421). */
  function LengthSimilarity(text1: string, text2: string): Num {
    var l1 := |Utf16(text1)|;
    var l2 := |Utf16(text2)|;
    Quotient(Min(l1, l2), Max(l1, l2))
  }

  /** `phraseMatches / Math.max(phrases1.length, phrases2.length)` (background.js:426). */
  function PhraseRatio(p1: seq<string>, p2: seq<string>): Num {
    Quotient(CountIn(p1, p2), Max(|p1|, |p2|))
  }

  /** The weighted sum of background.js:424-429; NaN in, NaN out. */
  function Combine(sentenceMatches: nat, phraseRatio: Num, wordSimilarity: real, lengthSimilarity: Num): Num {
    if phraseRatio.NaN? || lengthSimilarity.NaN? then NaN
    else Finite((if sentenceMatches > 0 then SENTENCE_WEIGHT else 0.0)
                 + phraseRatio.r * PHRASE_WEIGHT
                 + wordSimilarity * WORD_WEIGHT
                 + lengthSimilarity.r * LENGTH_WEIGHT)
  }

  /** `calculateDetailedSimilarity(text1, text2)`. Lengths are JavaScript
      lengths, in UTF-16 code units, of the raw texts. */
  function DetailedSimilarity(text1: string, text2: string): SimilarityResult {
    var n1 := Normalize(text1);
    var n2 := Normalize(text2);
    var sentenceMatches := CountMatched(Sentences(n1), Sentences(n2));
    var p1 := KeyPhrases(n1);
    var p2 := KeyPhrases(n2);
    var wordSimilarity := WordSimilarity(n1, n2);
    var lengthSimilarity := LengthSimilarity(text1, text2);
    SimilarityResult(
      Combine(sentenceMatches, PhraseRatio(p1, p2), wordSimilarity, lengthSimilarity),
      sentenceMatches, CountIn(p1, p2), wordSimilarity, lengthSimilarity)
  }

  lemma ElemSetCons(s: seq<string>)
    requires s != []
    ensures ElemSet(s) == {s[0]} + ElemSet(s[1..])
  {
    assert forall x :: x in s <==> x == s[0] || x in s[1..];
  }

  lemma AddOneCard(a: set<string>, x: string, b: set<string>)
    requires x !in a
    ensures |({x} + a) * b| == |a * b| + (if x in b then 1 else 0)
  {
    if x in b {
      assert ({x} + a) * b == (a * b) + {x};
    } else {
      assert ({x} + a) * b == a * b;
    }
  }

  /** Counting the phrases of a repetition-free list that occur in another
      list counts the intersection of their element sets. */
  lemma {:induction false} CountInIsIntersection(p1: seq<string>, p2: seq<string>)
    requires NoDuplicates(p1)
    ensures CountIn(p1, p2) == |ElemSet(p1) * ElemSet(p2)|
  {
    if p1 != [] {
      var x, rest := p1[0], p1[1..];
      assert NoDuplicates(rest) by {
        forall i, j | 0 <= i < j < |rest| ensures rest[i] != rest[j] {
          assert rest[i] == p1[i + 1] && rest[j] == p1[j + 1];
        }
      }
      CountInIsIntersection(rest, p2);
      assert x !in ElemSet(rest);
      ElemSetCons(p1);
      AddOneCard(ElemSet(rest), x, ElemSet(p2));
      assert x in p2 <==> x in ElemSet(p2);
    }
  }

  lemma {:induction false} CountInAll(p1: seq<string>, p2: seq<string>)
    requires forall x :: x in p1 ==> x in p2
    ensures CountIn(p1, p2) == |p1|
  {
    if p1 != [] {
      CountInAll(p1[1..], p2);
    }
  }

  lemma MatchedAgainstNothing(n1: string)
    ensures CountMatched([n1], []) == 0
  {
    assert [n1][1..] == [];
    assert !SomeTrimmedEqual([], n1);
  }

  lemma MatchedSingletons(n1: string, n2: string)
    requires IsNormal(n1) && IsNormal(n2)
    ensures CountMatched([n1], [n2]) == if n1 == n2 then 1 else 0
  {
    assert [n1][1..] == [];
    assert SomeTrimmedEqual([n2], n1) <==> Trim(n2) == Trim(n1) by { assert [n2][0] == n2; }
    assert Trim(n2) == Trim(n1) <==> n2 == n1 by {
      TrimWithoutOuterSpace(n1);
      TrimWithoutOuterSpace(n2);
    }
  }

  /** `CountMatched` on the sentence lists of two normal texts. */
  lemma SentenceSignal(n1: string, n2: string)
    requires IsNormal(n1) && IsNormal(n2)
    ensures CountMatched(Sentences(n1), Sentences(n2)) == if n1 != [] && n1 == n2 then 1 else 0
  {
    NormalSentences(n1);
    NormalSentences(n2);
    if n1 != [] {
      if n2 == [] {
        MatchedAgainstNothing(n1);
      } else {
        MatchedSingletons(n1, n2);
      }
    }
  }

  /** `sentenceMatches` is 0 or 1: it is 1 exactly when both normalised texts
      are equal and not empty, because the normaliser deletes the `.`, `!` and
      `?` the sentence split looks for (background.js:387-404). */
  lemma SentenceMatchesFlag(text1: string, text2: string)
    ensures DetailedSimilarity(text1, text2).sentenceMatches
            == if Normalize(text1) != [] && Normalize(text1) == Normalize(text2) then 1 else 0
  {
    NormalizeIsNormal(text1);
    NormalizeIsNormal(text2);
    SentenceSignal(Normalize(text1), Normalize(text2));
  }

  /** The phrases compared are those of the raw texts, and `phraseMatches` is
      the size of the intersection of the two phrase sets. */
  lemma PhraseMatchesIsIntersection(text1: string, text2: string)
    ensures DetailedSimilarity(text1, text2).phraseMatches
            == |ElemSet(KeyPhrases(text1)) * ElemSet(KeyPhrases(text2))|
  {
    NormalizeIdempotent(text1);
    NormalizeIdempotent(text2);
    KeyPhrasesAreWindows(Normalize(text1));
    CountInIsIntersection(KeyPhrases(Normalize(text1)), KeyPhrases(Normalize(text2)));
  }

  lemma CountInSymmetric(p1: seq<string>, p2: seq<string>)
    requires NoDuplicates(p1) && NoDuplicates(p2)
    ensures CountIn(p1, p2) == CountIn(p2, p1)
    ensures PhraseRatio(p1, p2) == PhraseRatio(p2, p1)
  {
    CountInIsIntersection(p1, p2);
    CountInIsIntersection(p2, p1);
    assert ElemSet(p1) * ElemSet(p2) == ElemSet(p2) * ElemSet(p1);
  }

  lemma WordSimilaritySymmetric(n1: string, n2: string)
    ensures WordSimilarity(n1, n2) == WordSimilarity(n2, n1)
  {
    var w1, w2 := WordSet(n1), WordSet(n2);
    assert w1 * w2 == w2 * w1;
  }

  lemma SentenceSignalSymmetric(n1: string, n2: string)
    requires IsNormal(n1) && IsNormal(n2)
    ensures CountMatched(Sentences(n1), Sentences(n2)) == CountMatched(Sentences(n2), Sentences(n1))
  {
    SentenceSignal(n1, n2);
    SentenceSignal(n2, n1);
  }

  lemma SignalsSymmetric(n1: string, n2: string)
    requires IsNormal(n1) && IsNormal(n2)
    ensures CountMatched(Sentences(n1), Sentences(n2)) == CountMatched(Sentences(n2), Sentences(n1))
    ensures PhraseRatio(KeyPhrases(n1), KeyPhrases(n2)) == PhraseRatio(KeyPhrases(n2), KeyPhrases(n1))
    ensures CountIn(KeyPhrases(n1), KeyPhrases(n2)) == CountIn(KeyPhrases(n2), KeyPhrases(n1))
    ensures WordSimilarity(n1, n2) == WordSimilarity(n2, n1)
  {
    SentenceSignalSymmetric(n1, n2);
    CountInSymmetric(KeyPhrases(n1), KeyPhrases(n2));
    WordSimilaritySymmetric(n1, n2);
  }

  /** Every signal, and so the whole result, is unchanged when the two texts
      are swapped. */
  lemma Symmetric(text1: string, text2: string)
    ensures DetailedSimilarity(text1, text2) == DetailedSimilarity(text2, text1)
  {
    NormalizeIsNormal(text1);
    NormalizeIsNormal(text2);
    SignalsSymmetric(Normalize(text1), Normalize(text2));
    assert LengthSimilarity(text1, text2) == LengthSimilarity(text2, text1);
  }

  /** The weighted sum of signals that lie in [0, 1] lies in [0, 1]. */
  lemma CombineInUnitRange(sentenceMatches: nat, phraseRatio: Num, wordSimilarity: real, lengthSimilarity: Num)
    requires phraseRatio.Finite? ==> 0.0 <= phraseRatio.r <= 1.0
    requires 0.0 <= wordSimilarity <= 1.0
    requires lengthSimilarity.Finite? ==> 0.0 <= lengthSimilarity.r <= 1.0
    ensures Combine(sentenceMatches, phraseRatio, wordSimilarity, lengthSimilarity).Finite? ==>
              0.0 <= Combine(sentenceMatches, phraseRatio, wordSimilarity, lengthSimilarity).r <= 1.0
  {
  }

  /** Each signal stays in its range, and so does the weighted sum whenever it
      is a number: the phrase count never exceeds the larger phrase list and
      every ratio is at most 1 (background.js:417-429). */
  lemma Bounds(text1: string, text2: string)
    ensures DetailedSimilarity(text1, text2).sentenceMatches <= 1
    ensures DetailedSimilarity(text1, text2).phraseMatches
            <= Max(|KeyPhrases(text1)|, |KeyPhrases(text2)|)
    ensures 0.0 <= DetailedSimilarity(text1, text2).wordSimilarity <= 1.0
    ensures DetailedSimilarity(text1, text2).lengthSimilarity.Finite? ==>
              0.0 <= DetailedSimilarity(text1, text2).lengthSimilarity.r <= 1.0
    ensures DetailedSimilarity(text1, text2).overallSimilarity.Finite? ==>
              0.0 <= DetailedSimilarity(text1, text2).overallSimilarity.r <= 1.0
  {
    var n1, n2 := Normalize(text1), Normalize(text2);
    SentenceMatchesFlag(text1, text2);
    KeyPhrasesOfNormal(text1);
    KeyPhrasesOfNormal(text2);
    CombineInUnitRange(CountMatched(Sentences(n1), Sentences(n2)),
      PhraseRatio(KeyPhrases(n1), KeyPhrases(n2)), WordSimilarity(n1, n2), LengthSimilarity(text1, text2));
  }

  lemma SubsetCard(a: set<string>, b: set<string>)
    requires a <= b
    ensures |a| <= |b|
  {
    assert b == a + (b - a);
  }

  lemma LengthDefined(text1: string, text2: string)
    ensures LengthSimilarity(text1, text2).NaN? <==> text1 == [] && text2 == []
  {
  }

  lemma EmptyHasNoWords()
    ensures NormalWords([]) == []
  {
    assert Normalize([]) == [];
  }

  /** The weighted sum is a number exactly when one of the two texts has at
      least three words; otherwise the phrase ratio is 0/0 (background.js:426).
      The length ratio is 0/0 only when both texts are empty
      (background.js:420), which have no words either. */
  lemma DefinedWithPhrases(text1: string, text2: string)
    ensures DetailedSimilarity(text1, text2).overallSimilarity.Finite?
            <==> |NormalWords(text1)| >= 3 || |NormalWords(text2)| >= 3
  {
    var n1, n2 := Normalize(text1), Normalize(text2);
    KeyPhrasesOfNormal(text1);
    KeyPhrasesOfNormal(text2);
    KeyPhrasesNonEmpty(text1);
    KeyPhrasesNonEmpty(text2);
    LengthDefined(text1, text2);
    EmptyHasNoWords();
    assert PhraseRatio(KeyPhrases(n1), KeyPhrases(n2)).NaN?
           <==> |KeyPhrases(text1)| == 0 && |KeyPhrases(text2)| == 0;
  }

  /** A text of three or more words is fully similar to itself: every signal
      saturates (background.js:402-429). */
  lemma SelfSimilarity(text: string)
    requires |NormalWords(text)| >= 3
    ensures DetailedSimilarity(text, text).overallSimilarity == Finite(1.0)
  {
    var n := Normalize(text);
    SentenceMatchesFlag(text, text);
    KeyPhrasesOfNormal(text);
    KeyPhrasesNonEmpty(text);
    EmptyHasNoWords();
    var p := KeyPhrases(n);
    CountInAll(p, p);
    assert PhraseRatio(p, p) == Finite(1.0);
    assert LengthSimilarity(text, text) == Finite(1.0);
  }
}
