/** The originality score (`calculateOriginalityScore`,
    background.js:576-608) and the band of the summary sentence
    (`generateAnalysisSummary`, background.js:19-30). */
module Scoring {
  import opened Wrappers
  import opened Ranking
  import opened Metrics
  import opened Similarity
  import opened Phrases
  import opened Text

  /** The base score, the thresholds and the formatting deduction of
      background.js:578-603; the factors 60, 10 and 0.2 are written where
      they are used, as in the source. */
  const BASE_SCORE: real := 100.0
  const UNIQUE_WORD_THRESHOLD: real := 0.8
  const FORMATTING_PENALTY: real := 5.0
  const READABILITY_THRESHOLD: real := 70.0

  /** `Math.max(...matches.map(m => m.similarity))` for a non-empty list. */
  function MaxSimilarity(matches: seq<Match>): (m: int)
    requires matches != []
    ensures exists i :: 0 <= i < |matches| && matches[i].similarity == m
    ensures forall i :: 0 <= i < |matches| ==> matches[i].similarity <= m
  {
    if |matches| == 1 then matches[0].similarity
    else
      var rest := MaxSimilarity(matches[1..]);
      assert forall i :: 1 <= i < |matches| ==> matches[i] == matches[1..][i - 1];
      if matches[0].similarity >= rest then matches[0].similarity else rest
  }

  /** What the matches take off the score: the highest integer percentage
      times 60, as written at background.js:583-586. */
  function SimilarityPenalty(matches: seq<Match>): real {
    if matches == [] then 0.0 else MaxSimilarity(matches) as real * 60.0
  }

  /** What the metrics take off the score (background.js:589-604). */
  function MetricsPenalty(metrics: Option<TextMetrics>): real {
    match metrics
    case None => 0.0
    case Some(m) =>
      UniqueWordPenalty(m.uniqueWordRatio)
      + FlagPenalty(m.hasExcessiveEmojis)
      + FlagPenalty(m.hasExcessiveHashtags)
      + FlagPenalty(m.hasExcessiveCaps)
      + ReadabilityPenalty(m.readabilityScore)
  }

  /** A NaN unique-word ratio fails the `< 0.8` test and costs nothing. */
  function UniqueWordPenalty(ratio: Num): real {
    if ratio.Below(UNIQUE_WORD_THRESHOLD) then (1.0 - ratio.r) * 10.0 else 0.0
  }

  function FlagPenalty(flag: bool): real {
    if flag then FORMATTING_PENALTY else 0.0
  }

  function ReadabilityPenalty(readability: real): real {
    if readability < READABILITY_THRESHOLD then (READABILITY_THRESHOLD - readability) * 0.2 else 0.0
  }

  /** The value `calculateOriginalityScore(matches, textMetrics)` returns. */
  function OriginalityScore(matches: seq<Match>, metrics: Option<TextMetrics>): (score: int)
    ensures 0 <= score <= 100
  {
    Clamp100(Round(BASE_SCORE - SimilarityPenalty(matches) - MetricsPenalty(metrics)))
  }

  /** `Math.max(...similarities)` on JavaScript numbers: NaN as soon as one
      of them is NaN, otherwise the largest of them. The order of the list
      does not matter. */
  function MaxNum(xs: seq<Num>): (m: Num)
    requires xs != []
    ensures m.NaN? <==> exists i :: 0 <= i < |xs| && xs[i].NaN?
    ensures m.Finite? ==> m in xs && forall i :: 0 <= i < |xs| ==> xs[i].Finite? && xs[i].r <= m.r
  {
    if |xs| == 1 then xs[0]
    else
      var rest := MaxNum(xs[1..]);
      assert forall i :: 1 <= i < |xs| ==> xs[i] == xs[1..][i - 1];
      if xs[0].NaN? || rest.NaN? then NaN
      else if xs[0].r >= rest.r then xs[0] else rest
  }

  /** What the matches take off the score (background.js:581-586), when
      their percentages are JavaScript numbers. */
  function SimilarityPenaltyNum(similarities: seq<Num>): Num {
    if similarities == [] then Finite(0.0) else MaxNum(similarities).Times(60.0)
  }

  /** `Math.max(0, Math.min(100, Math.round(x)))`: NaN stays NaN. */
  function RoundClamp(x: Num): Num {
    if x.NaN? then NaN else Finite(Clamp100(Round(x.r)) as real)
  }

  /** The value `calculateOriginalityScore(matches, textMetrics)` returns,
      given the `similarity` fields of the matches in any order: NaN exactly
      when one of them is NaN, otherwise a whole number in [0, 100]. */
  function ScoreOf(similarities: seq<Num>, metrics: Option<TextMetrics>): (score: Num)
    ensures score.NaN? <==> exists i :: 0 <= i < |similarities| && similarities[i].NaN?
    ensures score.Finite? ==> 0.0 <= score.r <= 100.0
  {
    RoundClamp(Finite(BASE_SCORE).Minus(SimilarityPenaltyNum(similarities)).Minus(Finite(MetricsPenalty(metrics))))
  }

  /** `calculateOriginalityScore`: starts at 100 and subtracts each penalty
      in turn from a JavaScript number, then rounds and clamps. */
  method CalculateOriginalityScore(similarities: seq<Num>, metrics: Option<TextMetrics>) returns (score: Num)
    ensures score == ScoreOf(similarities, metrics)
  {
    var s := Finite(BASE_SCORE);
    if |similarities| > 0 {
      var maxSimilarity := MaxNum(similarities);
      s := s.Minus(maxSimilarity.Times(60.0));
    }
    if metrics.Some? {
      s := DeductMetrics(s, metrics.value);
    }
    score := RoundClamp(s);
  }

  /** The metrics block of `calculateOriginalityScore`
      (background.js:589-604): each deduction in turn takes off what
      `MetricsPenalty` adds up, and a NaN score stays NaN. */
  method DeductMetrics(score: Num, m: TextMetrics) returns (s: Num)
    ensures s == score.Minus(Finite(MetricsPenalty(Some(m))))
    ensures s.NaN? <==> score.NaN?
  {
    s := score;
    if m.uniqueWordRatio.Below(UNIQUE_WORD_THRESHOLD) {
      s := s.Minus(Finite(1.0).Minus(m.uniqueWordRatio).Times(10.0));
    }
    ghost var deducted := UniqueWordPenalty(m.uniqueWordRatio);
    assert s == score.Minus(Finite(deducted));
    Deduct(score, s, deducted, m.hasExcessiveEmojis, FORMATTING_PENALTY);
    if m.hasExcessiveEmojis {
      s := s.Minus(Finite(FORMATTING_PENALTY));
    }
    deducted := deducted + FlagPenalty(m.hasExcessiveEmojis);
    Deduct(score, s, deducted, m.hasExcessiveHashtags, FORMATTING_PENALTY);
    if m.hasExcessiveHashtags {
      s := s.Minus(Finite(FORMATTING_PENALTY));
    }
    deducted := deducted + FlagPenalty(m.hasExcessiveHashtags);
    Deduct(score, s, deducted, m.hasExcessiveCaps, FORMATTING_PENALTY);
    if m.hasExcessiveCaps {
      s := s.Minus(Finite(FORMATTING_PENALTY));
    }
    deducted := deducted + FlagPenalty(m.hasExcessiveCaps);
    Deduct(score, s, deducted, m.readabilityScore < READABILITY_THRESHOLD,
           (READABILITY_THRESHOLD - m.readabilityScore) * 0.2);
    if m.readabilityScore < READABILITY_THRESHOLD {
      s := s.Minus(Finite((READABILITY_THRESHOLD - m.readabilityScore) * 0.2));
    }
    deducted := deducted + ReadabilityPenalty(m.readabilityScore);
    assert s == score.Minus(Finite(deducted));
    assert deducted == MetricsPenalty(Some(m));
  }

  /** Deducting `x` when `c` holds from `a` less `d` is deducting `d`
      plus, when `c` holds, `x` from `a`. */
  lemma Deduct(a: Num, s: Num, d: real, c: bool, x: real)
    requires s == a.Minus(Finite(d))
    ensures (if c then s.Minus(Finite(x)) else s) == a.Minus(Finite(d + if c then x else 0.0))
  {
  }

  /** The `similarity` fields of ranked matches, as JavaScript numbers. */
  function SimilaritiesOf(matches: seq<Match>): seq<Num> {
    seq(|matches|, i requires 0 <= i < |matches| => Finite(matches[i].similarity as real))
  }

  /** On integer percentages `Math.max` is the largest of them. */
  lemma MaxOfMatches(matches: seq<Match>)
    requires matches != []
    ensures MaxNum(SimilaritiesOf(matches)) == Finite(MaxSimilarity(matches) as real)
  {
    var xs := SimilaritiesOf(matches);
    var m := MaxNum(xs);
    var j :| 0 <= j < |matches| && matches[j].similarity == MaxSimilarity(matches);
    assert xs[j].r <= m.r;
    var k :| 0 <= k < |xs| && xs[k] == m;
    assert matches[k].similarity <= MaxSimilarity(matches);
  }

  /** Without NaN the score is the integer score of the matches. */
  lemma ScoreOfMatches(matches: seq<Match>, metrics: Option<TextMetrics>)
    ensures ScoreOf(SimilaritiesOf(matches), metrics) == Finite(OriginalityScore(matches, metrics) as real)
  {
    var sims := SimilaritiesOf(matches);
    if matches != [] {
      MaxOfMatches(matches);
    }
    assert SimilarityPenaltyNum(sims) == Finite(SimilarityPenalty(matches));
    var x := BASE_SCORE - SimilarityPenalty(matches) - MetricsPenalty(metrics);
    assert Finite(BASE_SCORE).Minus(SimilarityPenaltyNum(sims)).Minus(Finite(MetricsPenalty(metrics))) == Finite(x);
  }

  /** `Math.max` over two lists holding the same numbers is the same. */
  lemma MaxNumSameElements(xs: seq<Num>, ys: seq<Num>)
    requires xs != [] && ys != []
    requires forall x :: x in xs <==> x in ys
    ensures MaxNum(xs) == MaxNum(ys)
  {
    var a, b := MaxNum(xs), MaxNum(ys);
    if a.NaN? {
      var i :| 0 <= i < |xs| && xs[i].NaN?;
      assert xs[i] in ys;
    } else {
      forall j | 0 <= j < |ys|
        ensures ys[j].Finite?
      {
        assert ys[j] in xs;
      }
      var i :| 0 <= i < |ys| && ys[i] == a;
      var j :| 0 <= j < |xs| && xs[j] == b;
      assert a.r <= b.r && b.r <= a.r;
    }
  }

  /** The `similarity` field `calculateSimilarities` gives a candidate
      whose overall similarity is `overall`: `Math.round(NaN * 100)` is NaN. */
  function PercentNum(overall: Num): Num {
    if overall.NaN? then NaN else Finite(Percent(overall.r) as real)
  }

  /** The percentages of the candidates, in search order. */
  function PercentagesOf(overalls: seq<Num>): seq<Num> {
    seq(|overalls|, i requires 0 <= i < |overalls| => PercentNum(overalls[i]))
  }

  /** Two lists holding the same matches hold the same percentages. */
  lemma SameSimilarities(r: seq<Match>, scored: seq<Match>)
    requires multiset(r) == multiset(scored)
    ensures |r| == |scored|
    ensures forall x :: x in SimilaritiesOf(r) <==> x in SimilaritiesOf(scored)
  {
    assert |r| == |multiset(r)| == |scored|;
    var rs, ss := SimilaritiesOf(r), SimilaritiesOf(scored);
    forall x
      ensures x in rs <==> x in ss
    {
      if x in rs {
        var j :| 0 <= j < |rs| && rs[j] == x;
        assert r[j] in multiset(scored);
        var i :| 0 <= i < |scored| && scored[i] == r[j];
        assert ss[i] == x;
      }
      if x in ss {
        var i :| 0 <= i < |ss| && ss[i] == x;
        assert scored[i] in multiset(r);
        var j :| 0 <= j < |r| && r[j] == scored[i];
        assert rs[j] == x;
      }
    }
  }

  /** The ranked matches carry the same percentages as the candidates,
      only in another order. */
  lemma RankedPercentages(cs: seq<Candidate>, overalls: seq<Num>)
    requires |overalls| == |cs|
    requires Rank(cs, overalls).Some?
    ensures |Rank(cs, overalls).value| == |cs|
    ensures forall x :: x in SimilaritiesOf(Rank(cs, overalls).value) <==> x in PercentagesOf(overalls)
  {
    ScoreEachSpec(cs, overalls);
    var scored := ScoreEach(cs, overalls).value;
    SortPermutes(scored);
    SameSimilarities(Rank(cs, overalls).value, scored);
    assert SimilaritiesOf(scored) == PercentagesOf(overalls);
  }

  /** The score `performAnalysis` computes from the candidates' overall
      similarities (background.js:220-224). `Math.max` does not depend on the
      order of the matches, so the order a NaN leaves the sort in does not
      matter: the score is NaN exactly when an overall similarity is NaN,
      and otherwise it is the integer score of the ranked matches. */
  lemma RankedScore(cs: seq<Candidate>, overalls: seq<Num>, metrics: Option<TextMetrics>)
    requires |overalls| == |cs|
    requires forall i :: 0 <= i < |cs| && overalls[i].Finite? ==> 0.0 <= overalls[i].r <= 1.0
    ensures ScoreOf(PercentagesOf(overalls), metrics).NaN? <==> exists i :: 0 <= i < |cs| && overalls[i].NaN?
    ensures ScoreOf(PercentagesOf(overalls), metrics).Finite? ==>
              && Rank(cs, overalls).Some?
              && ScoreOf(PercentagesOf(overalls), metrics)
                 == Finite(OriginalityScore(Rank(cs, overalls).value, metrics) as real)
  {
    var ps := PercentagesOf(overalls);
    if exists i :: 0 <= i < |cs| && overalls[i].NaN? {
      var i :| 0 <= i < |cs| && overalls[i].NaN?;
      assert ps[i].NaN?;
    } else {
      RankSpec(cs, overalls);
      var r := Rank(cs, overalls).value;
      var rs := SimilaritiesOf(r);
      RankedPercentages(cs, overalls);
      if cs != [] {
        MaxNumSameElements(rs, ps);
      }
      assert SimilarityPenaltyNum(rs) == SimilarityPenaltyNum(ps);
      ScoreOfMatches(r, metrics);
    }
  }

  /** Steps 4 and 5 of `performAnalysis` (background.js:219-224) on a post
      and its search results: the score is NaN exactly when the post and one
      of the results both have fewer than three words, since their phrase
      ratio is then 0/0 (background.js:426); otherwise it is the integer
      score of the ranking `calculateSimilarities` returns. */
  lemma AnalysisScore(text: string, cs: seq<Candidate>, metrics: Option<TextMetrics>)
    ensures ScoreOf(PercentagesOf(Overalls(text, cs)), metrics).NaN?
            <==> exists i :: 0 <= i < |cs| && |NormalWords(text)| < 3 && |NormalWords(cs[i].text)| < 3
    ensures ScoreOf(PercentagesOf(Overalls(text, cs)), metrics).Finite? ==>
              && CalculateSimilarities(text, cs).Some?
              && ScoreOf(PercentagesOf(Overalls(text, cs)), metrics)
                 == Finite(OriginalityScore(CalculateSimilarities(text, cs).value, metrics) as real)
  {
    var overalls := Overalls(text, cs);
    OverallsBounded(text, cs);
    RankedScore(cs, overalls, metrics);
    forall i | 0 <= i < |cs|
      ensures overalls[i].NaN? <==> |NormalWords(text)| < 3 && |NormalWords(cs[i].text)| < 3
    {
      DefinedWithPhrases(text, cs[i].text);
    }
  }

  /** `result.originalityScore || 0` in the message listener
      (background.js:118): NaN is falsy and is sent as 0, every number is
      sent as it is. */
  function ReportedScore(score: Num): (sent: Num)
    ensures sent.Finite?
    ensures score.Finite? ==> sent == score
    ensures score.NaN? ==> sent == Finite(0.0)
  {
    if score.NaN? then Finite(0.0) else score
  }

  /** A post without white space checked against a search result without
      white space: each has at most one word, so the score is NaN, the
      summary opens with "Significant similarities" and the listener sends
      0, whatever the metrics and the other results. */
  lemma OneWordPostScoresNaN(text: string, cs: seq<Candidate>, k: nat, metrics: Option<TextMetrics>)
    requires forall i :: 0 <= i < |text| ==> !IsSpace(text[i])
    requires k < |cs| && forall i :: 0 <= i < |cs[k].text| ==> !IsSpace(cs[k].text[i])
    ensures ScoreOf(PercentagesOf(Overalls(text, cs)), metrics).NaN?
    ensures SummaryBand(ScoreOf(PercentagesOf(Overalls(text, cs)), metrics)) == SignificantSimilarities
    ensures ReportedScore(ScoreOf(PercentagesOf(Overalls(text, cs)), metrics)) == Finite(0.0)
  {
    OneWordWithoutSpace(text);
    OneWordWithoutSpace(cs[k].text);
    AnalysisScore(text, cs, metrics);
  }

  /** "Congrats" checked against "congrats!" is such a case. */
  lemma CongratsScoresNaN(metrics: Option<TextMetrics>)
    ensures ScoreOf(PercentagesOf(Overalls("Congrats", [Candidate("congrats!", "", "")])), metrics).NaN?
  {
    OneWordPostScoresNaN("Congrats", [Candidate("congrats!", "", "")], 0, metrics);
  }

  /** Every penalty is a deduction: none of them raises the score. */
  lemma MetricsPenaltyNonNegative(metrics: Option<TextMetrics>)
    ensures MetricsPenalty(metrics) >= 0.0
  {
  }

  lemma ClampMonotone(a: int, b: int)
    requires a <= b
    ensures Clamp100(a) <= Clamp100(b)
  {
  }

  /** A larger deduction gives a score that is no higher. */
  lemma ScoreMonotone(x: real, y: real)
    requires x <= y
    ensures Clamp100(Round(x)) <= Clamp100(Round(y))
  {
    RoundMonotone(x, y);
    ClampMonotone(Round(x), Round(y));
  }

  /** Without matches and without metrics the score is 100
      (background.js:578). */
  lemma NoEvidenceIsOriginal()
    ensures OriginalityScore([], None) == 100
  {
  }

  /** Metrics can only lower the score (background.js:589-606). */
  lemma MetricsOnlyLower(matches: seq<Match>, m: TextMetrics)
    ensures OriginalityScore(matches, Some(m)) <= OriginalityScore(matches, None)
  {
    MetricsPenaltyNonNegative(Some(m));
    ScoreMonotone(BASE_SCORE - SimilarityPenalty(matches) - MetricsPenalty(Some(m)),
                  BASE_SCORE - SimilarityPenalty(matches) - MetricsPenalty(None));
  }

  /** Raising any formatting flag, or lowering the readability score, can
      only lower the originality score. */
  lemma FlagsOnlyLower(matches: seq<Match>, m: TextMetrics, worse: TextMetrics)
    requires worse.uniqueWordRatio == m.uniqueWordRatio
    requires m.hasExcessiveEmojis ==> worse.hasExcessiveEmojis
    requires m.hasExcessiveHashtags ==> worse.hasExcessiveHashtags
    requires m.hasExcessiveCaps ==> worse.hasExcessiveCaps
    requires worse.readabilityScore <= m.readabilityScore
    ensures OriginalityScore(matches, Some(worse)) <= OriginalityScore(matches, Some(m))
  {
    assert MetricsPenalty(Some(m)) <= MetricsPenalty(Some(worse));
    ScoreMonotone(BASE_SCORE - SimilarityPenalty(matches) - MetricsPenalty(Some(worse)),
                  BASE_SCORE - SimilarityPenalty(matches) - MetricsPenalty(Some(m)));
  }

  /** As written, the integer percentage is multiplied by 60, so any match
      of 2 % or more takes off at least 120 points and the score is 0,
      whatever the metrics (background.js:583-586). */
  lemma AnyMatchZeroes(matches: seq<Match>, metrics: Option<TextMetrics>, i: nat)
    requires i < |matches| && matches[i].similarity >= 2
    ensures OriginalityScore(matches, metrics) == 0
  {
    MetricsPenaltyNonNegative(metrics);
    assert MaxSimilarity(matches) >= 2;
    assert BASE_SCORE - SimilarityPenalty(matches) - MetricsPenalty(metrics) <= -20.0;
  }

  /** A post that resembles a search result by 2 % is scored 0 as written. */
  lemma TwoPercentScoresZero()
    ensures OriginalityScore([Match(Candidate("a", "b", "c"), 2)], None) == 0
  {
    AnyMatchZeroes([Match(Candidate("a", "b", "c"), 2)], None, 0);
  }

  /** The deduction the comment "up to 60 points" describes: the percentage
      scaled back to a fraction before it is multiplied by 60. */
  function IntendedSimilarityPenalty(matches: seq<Match>): real {
    if matches == [] then 0.0 else MaxSimilarity(matches) as real / 100.0 * 60.0
  }

  function IntendedOriginalityScore(matches: seq<Match>, metrics: Option<TextMetrics>): (score: int)
    ensures 0 <= score <= 100
  {
    Clamp100(Round(BASE_SCORE - IntendedSimilarityPenalty(matches) - MetricsPenalty(metrics)))
  }

  /** With the intended scaling, matches alone take off at most 60 points:
      for percentages in [0, 100] and no metrics the score is in [40, 100]. */
  lemma IntendedAtMostSixty(matches: seq<Match>)
    requires forall i :: 0 <= i < |matches| ==> 0 <= matches[i].similarity <= 100
    ensures 40 <= IntendedOriginalityScore(matches, None) <= 100
  {
    if matches != [] {
      var k :| 0 <= k < |matches| && matches[k].similarity == MaxSimilarity(matches);
      assert 0.0 <= IntendedSimilarityPenalty(matches) <= 60.0;
    }
  }

  /** With the intended scaling, a more similar top match never raises the
      score. */
  lemma IntendedMonotone(a: seq<Match>, b: seq<Match>, metrics: Option<TextMetrics>)
    requires a != [] && b != []
    requires MaxSimilarity(a) <= MaxSimilarity(b)
    ensures IntendedOriginalityScore(b, metrics) <= IntendedOriginalityScore(a, metrics)
  {
    ScoreMonotone(BASE_SCORE - IntendedSimilarityPenalty(b) - MetricsPenalty(metrics),
                  BASE_SCORE - IntendedSimilarityPenalty(a) - MetricsPenalty(metrics));
  }

  /** The same 2 % match costs one point with the intended scaling. */
  lemma TwoPercentScoresNinetyNine()
    ensures IntendedOriginalityScore([Match(Candidate("a", "b", "c"), 2)], None) == 99
  {
    assert MaxSimilarity([Match(Candidate("a", "b", "c"), 2)]) == 2;
  }

  /** The opening sentence of the summary (background.js:22-30). */
  datatype Band = HighlyOriginal | LikelyOriginal | SomeSimilarities | SignificantSimilarities

  /** The band `generateAnalysisSummary` picks for a score. Every
      comparison with NaN is false, so a NaN score falls through to the
      last band. */
  function SummaryBand(score: Num): Band {
    if score.AtLeast(90.0) then HighlyOriginal
    else if score.AtLeast(80.0) then LikelyOriginal
    else if score.AtLeast(50.0) then SomeSimilarities
    else SignificantSimilarities
  }

  /** How favourable a band is, from 0 (significant similarities) to 3. */
  function BandLevel(b: Band): nat {
    match b
    case SignificantSimilarities => 0
    case SomeSimilarities => 1
    case LikelyOriginal => 2
    case HighlyOriginal => 3
  }

  /** A higher score never gets a less favourable band, and NaN gets the
      least favourable one. */
  lemma BandMonotone(s1: real, s2: real)
    requires s1 <= s2
    ensures BandLevel(SummaryBand(Finite(s1))) <= BandLevel(SummaryBand(Finite(s2)))
    ensures BandLevel(SummaryBand(NaN)) <= BandLevel(SummaryBand(Finite(s1)))
    ensures SummaryBand(Finite(s1)) == HighlyOriginal ==> SummaryBand(Finite(s2)) == HighlyOriginal
  {
  }

  /** As written, a post with any match of 2 % or more is reported as
      significantly similar. */
  lemma AnyMatchIsSignificant(matches: seq<Match>, metrics: Option<TextMetrics>, i: nat)
    requires i < |matches| && matches[i].similarity >= 2
    ensures SummaryBand(Finite(OriginalityScore(matches, metrics) as real)) == SignificantSimilarities
  {
    AnyMatchZeroes(matches, metrics, i);
  }
}
