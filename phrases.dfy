/** Key-phrase extraction (`extractKeyPhrases`, background.js:358-384): every
    window of three, four and five consecutive words of every sentence of the
    normalised text, without repetitions, in order of first appearance. */
module Phrases {
  import opened Text

  ghost predicate NoDuplicates<T>(s: seq<T>) {
    forall i, j :: 0 <= i < j < |s| ==> s[i] != s[j]
  }

  /** `words.slice(i, i + n).join(' ')`. */
  function Window(words: seq<string>, i: nat, n: nat): string
    requires i + n <= |words|
  {
    Join(words[i..i + n], ' ')
  }

  /** How often `for (let i = 0; i < words.length - 2; i++)` runs. */
  function LoopBound(words: seq<string>): nat {
    if |words| >= 2 then |words| - 2 else 0
  }

  /** What iteration `i` of that loop pushes: the 3-word window, then the
      4-word window if `i < words.length - 3`, then the 5-word window if
      `i < words.length - 4`. */
  function StepPhrases(words: seq<string>, i: nat): seq<string>
    requires i + 3 <= |words|
  {
    [Window(words, i, 3)]
    + (if i < |words| - 3 then [Window(words, i, 4)] else [])
    + (if i < |words| - 4 then [Window(words, i, 5)] else [])
  }

  /** What the first `k` iterations push. */
  function Windows(words: seq<string>, k: nat): seq<string>
    requires k <= LoopBound(words)
  {
    if k == 0 then [] else Windows(words, k - 1) + StepPhrases(words, k - 1)
  }

  /** The phrases pushed for one sentence: its words are `sentence.trim().split(' ')`. */
  function SentencePhrases(sentence: string): seq<string> {
    var words := Split(Trim(sentence), IsBlank);
    Windows(words, LoopBound(words))
  }

  /** The array `phrases` after the `forEach` over the sentences. */
  function RawPhrases(sentences: seq<string>): seq<string> {
    if sentences == [] then []
    else RawPhrases(sentences[..|sentences| - 1]) + SentencePhrases(sentences[|sentences| - 1])
  }

  /** `Array.from(new Set(xs))`: the first occurrence of every element, in order. */
  function Dedupe(xs: seq<string>): (r: seq<string>)
    ensures NoDuplicates(r)
    ensures forall x :: x in r <==> x in xs
  {
    if xs == [] then []
    else
      var d := Dedupe(xs[..|xs| - 1]);
      var x := xs[|xs| - 1];
      assert forall y :: y in xs <==> y in xs[..|xs| - 1] || y == x;
      if x in d then d else d + [x]
  }

  /** The value `extractKeyPhrases(text)` returns. */
  function KeyPhrases(text: string): seq<string> {
    Dedupe(RawPhrases(Sentences(Normalize(text))))
  }

  /** The words of the normalised text, `normalized.split(' ')` for a text
      that is not empty. */
  function NormalWords(text: string): seq<string> {
    var n := Normalize(text);
    if n == [] then [] else Split(n, IsBlank)
  }

  /** A text without white space has at most one word, so it yields no
      phrase of three words or more. */
  lemma OneWordWithoutSpace(text: string)
    requires forall i :: 0 <= i < |text| ==> !IsSpace(text[i])
    ensures |NormalWords(text)| <= 1
  {
    NormalizeWithoutSpace(text);
    SplitWithoutSeparator(Normalize(text), IsBlank);
  }

  /** `p` is `n` consecutive words, for `n` = 3, 4 or 5. */
  ghost predicate IsPhraseOf(words: seq<string>, p: string) {
    exists i: nat, n: nat :: 3 <= n <= 5 && i + n <= |words| && Window(words, i, n) == p
  }

  /** The same, restricted to windows that start before `k`. */
  ghost predicate IsPhraseBefore(words: seq<string>, k: nat, p: string) {
    exists i: nat, n: nat :: 3 <= n <= 5 && i < k && i + n <= |words| && Window(words, i, n) == p
  }

  /** One iteration pushes exactly the windows of 3 to 5 words that start
      at `j` and fit. */
  lemma StepPhrasesMembers(words: seq<string>, j: nat, p: string)
    requires j + 3 <= |words|
    ensures p in StepPhrases(words, j) <==>
            exists n: nat :: 3 <= n <= 5 && j + n <= |words| && Window(words, j, n) == p
  {
    if p in StepPhrases(words, j) {
      if p == Window(words, j, 3) {
        assert 3 <= 3 <= 5 && j + 3 <= |words| && Window(words, j, 3) == p;
      } else if j < |words| - 3 && p == Window(words, j, 4) {
        assert 3 <= 4 <= 5 && j + 4 <= |words| && Window(words, j, 4) == p;
      } else {
        assert j + 5 <= |words| && Window(words, j, 5) == p;
      }
    }
  }

  /** A window starts before `j + 1` when it starts before `j` or at `j`. */
  lemma PhraseBeforeStep(words: seq<string>, j: nat, p: string)
    ensures IsPhraseBefore(words, j + 1, p) <==>
            IsPhraseBefore(words, j, p)
            || exists n: nat :: 3 <= n <= 5 && j + n <= |words| && Window(words, j, n) == p
  {
    if IsPhraseBefore(words, j + 1, p) {
      var i: nat, n: nat :| 3 <= n <= 5 && i < j + 1 && i + n <= |words| && Window(words, i, n) == p;
      if i < j {
        assert IsPhraseBefore(words, j, p);
      }
    }
    if exists n: nat :: 3 <= n <= 5 && j + n <= |words| && Window(words, j, n) == p {
      var n: nat :| 3 <= n <= 5 && j + n <= |words| && Window(words, j, n) == p;
      assert IsPhraseBefore(words, j + 1, p);
    }
  }

  lemma {:induction false} WindowsMembers(words: seq<string>, k: nat, p: string)
    requires k <= LoopBound(words)
    ensures p in Windows(words, k) <==> IsPhraseBefore(words, k, p)
  {
    if k > 0 {
      var j := k - 1;
      WindowsMembers(words, j, p);
      StepPhrasesMembers(words, j, p);
      PhraseBeforeStep(words, j, p);
      assert Windows(words, k) == Windows(words, j) + StepPhrases(words, j);
    }
  }

  /** The phrases of one sentence are exactly its 3-, 4- and 5-word windows:
      each pushed phrase is one, and each window that fits is pushed. */
  lemma SentencePhrasesMembers(sentence: string, p: string)
    ensures p in SentencePhrases(sentence) <==> IsPhraseOf(Split(Trim(sentence), IsBlank), p)
  {
    var words := Split(Trim(sentence), IsBlank);
    WindowsMembers(words, LoopBound(words), p);
    if IsPhraseOf(words, p) {
      var i: nat, n: nat :| 3 <= n <= 5 && i + n <= |words| && Window(words, i, n) == p;
      assert i < LoopBound(words);
    }
  }

  /** `extractKeyPhrases(text)` returns a list without repetitions whose
      elements are exactly the 3-, 4- and 5-word windows of the normalised
      text (background.js:358-384). */
  lemma KeyPhrasesAreWindows(text: string)
    ensures NoDuplicates(KeyPhrases(text))
    ensures forall p :: p in KeyPhrases(text) <==> IsPhraseOf(NormalWords(text), p)
  {
    var n := Normalize(text);
    NormalizeIsNormal(text);
    NormalSentences(n);
    if n != [] {
      assert RawPhrases([n]) == SentencePhrases(n);
      TrimWithoutOuterSpace(n);
      forall p ensures p in KeyPhrases(text) <==> IsPhraseOf(NormalWords(text), p) {
        SentencePhrasesMembers(n, p);
      }
    }
  }

  /** `calculateDetailedSimilarity` hands the normalised text to
      `extractKeyPhrases` (background.js:407-408); that changes nothing. */
  lemma KeyPhrasesOfNormal(text: string)
    ensures KeyPhrases(Normalize(text)) == KeyPhrases(text)
    ensures NormalWords(Normalize(text)) == NormalWords(text)
  {
    NormalizeIdempotent(text);
  }

  /** There is a key phrase exactly when the normalised text has at least
      three words. */
  lemma KeyPhrasesNonEmpty(text: string)
    ensures |KeyPhrases(text)| > 0 <==> |NormalWords(text)| >= 3
  {
    KeyPhrasesAreWindows(text);
    var words := NormalWords(text);
    if |words| >= 3 {
      assert Window(words, 0, 3) in KeyPhrases(text);
    }
    if |KeyPhrases(text)| > 0 {
      assert IsPhraseOf(words, KeyPhrases(text)[0]);
    }
  }

  /** The inner loop of `extractKeyPhrases` for one sentence
      (background.js:371-380): what it pushes onto `phrases`. */
  method PushSentencePhrases(sentence: string) returns (pushed: seq<string>)
    ensures pushed == SentencePhrases(sentence)
  {
    var words := Split(Trim(sentence), IsBlank);
    pushed := [];
    var i := 0;
    while i < |words| - 2
      invariant 0 <= i <= LoopBound(words)
      invariant pushed == Windows(words, i)
    {
      ghost var before := pushed;
      pushed := pushed + [Window(words, i, 3)];
      if i < |words| - 3 {
        pushed := pushed + [Window(words, i, 4)];
      }
      if i < |words| - 4 {
        pushed := pushed + [Window(words, i, 5)];
      }
      assert pushed == before + StepPhrases(words, i);
      i := i + 1;
    }
  }

  /** `Array.from(new Set(raw))` (background.js:383): a set remembers what
      has been seen, and only first occurrences are kept. */
  method RemoveRepeats(raw: seq<string>) returns (phrases: seq<string>)
    ensures phrases == Dedupe(raw)
  {
    var seen: set<string> := {};
    phrases := [];
    for j := 0 to |raw|
      invariant phrases == Dedupe(raw[..j])
      invariant forall x :: x in seen <==> x in phrases
    {
      if raw[j] !in seen {
        phrases := phrases + [raw[j]];
        seen := seen + {raw[j]};
      }
      assert raw[..j + 1][..j] == raw[..j];
    }
    assert raw[..|raw|] == raw;
  }

  /** `extractKeyPhrases`: pushes the windows of every sentence, then removes
      repetitions. */
  method ExtractKeyPhrases(text: string) returns (phrases: seq<string>)
    ensures phrases == KeyPhrases(text)
    ensures NoDuplicates(phrases)
    ensures forall p :: p in phrases <==> IsPhraseOf(NormalWords(text), p)
  {
    var normalized := Normalize(text);
    var sentences := Sentences(normalized);
    var raw: seq<string> := [];
    for k := 0 to |sentences|
      invariant raw == RawPhrases(sentences[..k])
    {
      var pushed := PushSentencePhrases(sentences[k]);
      raw := raw + pushed;
      assert sentences[..k + 1][..k] == sentences[..k];
      assert RawPhrases(sentences[..k + 1]) == RawPhrases(sentences[..k]) + SentencePhrases(sentences[k]);
    }
    assert sentences[..|sentences|] == sentences;
    phrases := RemoveRepeats(raw);
    KeyPhrasesAreWindows(text);
  }
}
