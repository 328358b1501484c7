/** Ranking of search results by similarity (`calculateSimilarities`,
    background.js:566-574): each candidate gets an integer percentage and
    the list is sorted, most similar first, by the stable sort of
    `Array.prototype.sort`. */
module Ranking {
  import opened Wrappers
  import opened Similarity

  /** A search result: the fields the scoring reads or passes on. */
  datatype Candidate = Candidate(text: string, author: string, url: string)

  /** `{...result, similarity}`: a candidate with its integer percentage. */
  datatype Match = Match(candidate: Candidate, similarity: int)

  /** `Math.round(overall * 100)` for a ratio in [0, 1]. */
  function Percent(overall: real): (p: int)
    ensures 0.0 <= overall <= 1.0 ==> 0 <= p <= 100
    ensures 0.0 <= overall <= 1.0 ==> overall * 100.0 - 0.5 < p as real <= overall * 100.0 + 0.5
  {
    Round(overall * 100.0)
  }

  /** `similarity.overallSimilarity` of every candidate against the text,
      in order. */
  function Overalls(text: string, cs: seq<Candidate>): (o: seq<Num>)
    ensures |o| == |cs|
  {
    seq(|cs|, i requires 0 <= i < |cs| => DetailedSimilarity(text, cs[i].text).overallSimilarity)
  }

  /** The `map` step on the overall similarities; `None` as soon as one of
      them is NaN, for which `Math.round` gives NaN as well. */
  function ScoreEach(cs: seq<Candidate>, overalls: seq<Num>): Option<seq<Match>>
    requires |overalls| == |cs|
  {
    if cs == [] then Some([])
    else if overalls[0].NaN? then None
    else
      match ScoreEach(cs[1..], overalls[1..])
      case Some(ms) => Some([Match(cs[0], Percent(overalls[0].r))] + ms)
      case None => None
  }

  /** Inserts `m` before the first element that is not strictly more
      similar, so earlier elements stay ahead of later equal ones. */
  function Insert(m: Match, s: seq<Match>): seq<Match> {
    if s == [] then [m]
    else if s[0].similarity <= m.similarity then [m] + s
    else [s[0]] + Insert(m, s[1..])
  }

  /** `sort((a, b) => b.similarity - a.similarity)`: a stable sort in
      non-increasing order of similarity, written as insertion sort. */
  function SortBySimilarity(ms: seq<Match>): seq<Match> {
    if ms == [] then [] else Insert(ms[0], SortBySimilarity(ms[1..]))
  }

  /** Scores the candidates with the given overall similarities and sorts
      them. `None` when one of them is NaN: the comparator is then
      inconsistent and the order `sort` produces is not determined by the
      language. */
  function Rank(cs: seq<Candidate>, overalls: seq<Num>): Option<seq<Match>>
    requires |overalls| == |cs|
  {
    match ScoreEach(cs, overalls)
    case None => None
    case Some(ms) => Some(SortBySimilarity(ms))
  }

  /** `calculateSimilarities(originalText, searchResults)`. */
  function CalculateSimilarities(text: string, cs: seq<Candidate>): Option<seq<Match>> {
    Rank(cs, Overalls(text, cs))
  }

  predicate SortedDescending(s: seq<Match>) {
    forall i, j :: 0 <= i < j < |s| ==> s[i].similarity >= s[j].similarity
  }

  /** The elements of `s` whose similarity is `v`, in order. */
  function WithSimilarity(s: seq<Match>, v: int): seq<Match> {
    if s == [] then []
    else (if s[0].similarity == v then [s[0]] else []) + WithSimilarity(s[1..], v)
  }

  /** The overall similarities are those of `calculateDetailedSimilarity`,
      in order. */
  lemma OverallsAt(text: string, cs: seq<Candidate>)
    ensures forall i :: 0 <= i < |cs| ==>
              Overalls(text, cs)[i] == DetailedSimilarity(text, cs[i].text).overallSimilarity
  {
  }

  /** Each overall similarity lies in [0, 1] when it is a number. */
  lemma OverallsBounded(text: string, cs: seq<Candidate>)
    ensures forall i :: 0 <= i < |cs| && Overalls(text, cs)[i].Finite? ==>
              0.0 <= Overalls(text, cs)[i].r <= 1.0
  {
    OverallsAt(text, cs);
    forall i | 0 <= i < |cs| && Overalls(text, cs)[i].Finite?
      ensures 0.0 <= Overalls(text, cs)[i].r <= 1.0
    {
      Bounds(text, cs[i].text);
    }
  }

  /** The `map` keeps the candidates in order and gives each its
      percentage; it answers exactly when no similarity is NaN. */
  lemma {:induction false} ScoreEachSpec(cs: seq<Candidate>, overalls: seq<Num>)
    requires |overalls| == |cs|
    ensures ScoreEach(cs, overalls).Some? <==> forall i :: 0 <= i < |cs| ==> overalls[i].Finite?
    ensures ScoreEach(cs, overalls).Some? ==>
              && |ScoreEach(cs, overalls).value| == |cs|
              && forall i :: 0 <= i < |cs| ==>
                   && overalls[i].Finite?
                   && ScoreEach(cs, overalls).value[i] == Match(cs[i], Percent(overalls[i].r))
  {
    if cs != [] {
      ScoreEachSpec(cs[1..], overalls[1..]);
      if !overalls[0].NaN? && ScoreEach(cs[1..], overalls[1..]).None? {
        var i :| 0 <= i < |cs| - 1 && overalls[1..][i].NaN?;
        assert overalls[i + 1].NaN?;
      }
    }
  }

  lemma {:induction false} InsertPermutes(m: Match, s: seq<Match>)
    ensures multiset(Insert(m, s)) == multiset(s) + multiset{m}
    ensures |Insert(m, s)| == |s| + 1
  {
    if s != [] && s[0].similarity > m.similarity {
      InsertPermutes(m, s[1..]);
      assert s == [s[0]] + s[1..];
    }
  }

  lemma {:induction false} InsertMembers(m: Match, s: seq<Match>)
    ensures forall x :: x in Insert(m, s) <==> x == m || x in s
  {
    if s != [] && s[0].similarity > m.similarity {
      InsertMembers(m, s[1..]);
      assert forall x :: x in s <==> x == s[0] || x in s[1..];
    }
  }

  /** A match at least as similar as every element of a sorted list can go
      in front of it. */
  lemma ConsSorted(h: Match, r: seq<Match>)
    requires SortedDescending(r)
    requires forall x :: x in r ==> h.similarity >= x.similarity
    ensures SortedDescending([h] + r)
  {
    forall i, j | 0 <= i < j < |[h] + r| ensures ([h] + r)[i].similarity >= ([h] + r)[j].similarity {
      if i == 0 {
        assert ([h] + r)[j] == r[j - 1];
      } else {
        assert ([h] + r)[i] == r[i - 1] && ([h] + r)[j] == r[j - 1];
      }
    }
  }

  lemma {:induction false} InsertSorted(m: Match, s: seq<Match>)
    requires SortedDescending(s)
    ensures SortedDescending(Insert(m, s))
  {
    if s != [] && s[0].similarity > m.similarity {
      InsertSorted(m, s[1..]);
      InsertMembers(m, s[1..]);
      forall x | x in s[1..] ensures s[0].similarity >= x.similarity {
        var k :| 0 <= k < |s[1..]| && s[1..][k] == x;
        assert s[k + 1] == x;
      }
      ConsSorted(s[0], Insert(m, s[1..]));
    } else if s != [] {
      forall x | x in s ensures m.similarity >= x.similarity {
        var k :| 0 <= k < |s| && s[k] == x;
      }
      ConsSorted(m, s);
    }
  }

  /** Inserting `m` adds it to its own similarity class, at the front, and
      leaves every class untouched otherwise. */
  lemma {:induction false} InsertStable(m: Match, s: seq<Match>, v: int)
    ensures WithSimilarity(Insert(m, s), v)
            == (if m.similarity == v then [m] else []) + WithSimilarity(s, v)
  {
    if s != [] {
      if s[0].similarity <= m.similarity {
        assert ([m] + s)[1..] == s;
      } else {
        InsertStable(m, s[1..], v);
        assert ([s[0]] + Insert(m, s[1..]))[1..] == Insert(m, s[1..]);
      }
    }
  }

  lemma {:induction false} SortPermutes(ms: seq<Match>)
    ensures multiset(SortBySimilarity(ms)) == multiset(ms)
    ensures |SortBySimilarity(ms)| == |ms|
  {
    if ms != [] {
      SortPermutes(ms[1..]);
      InsertPermutes(ms[0], SortBySimilarity(ms[1..]));
      assert ms == [ms[0]] + ms[1..];
    }
  }

  lemma {:induction false} SortSorted(ms: seq<Match>)
    ensures SortedDescending(SortBySimilarity(ms))
  {
    if ms != [] {
      SortSorted(ms[1..]);
      InsertSorted(ms[0], SortBySimilarity(ms[1..]));
    }
  }

  lemma {:induction false} SortStable(ms: seq<Match>, v: int)
    ensures WithSimilarity(SortBySimilarity(ms), v) == WithSimilarity(ms, v)
  {
    if ms != [] {
      SortStable(ms[1..], v);
      InsertStable(ms[0], SortBySimilarity(ms[1..]), v);
    }
  }

  /** The sort returns a permutation of its input, in non-increasing order
      of similarity, and keeps the input order among equal similarities. */
  lemma SortSpec(ms: seq<Match>)
    ensures multiset(SortBySimilarity(ms)) == multiset(ms)
    ensures |SortBySimilarity(ms)| == |ms|
    ensures SortedDescending(SortBySimilarity(ms))
    ensures forall v :: WithSimilarity(SortBySimilarity(ms), v) == WithSimilarity(ms, v)
  {
    SortPermutes(ms);
    SortSorted(ms);
    forall v ensures WithSimilarity(SortBySimilarity(ms), v) == WithSimilarity(ms, v) {
      SortStable(ms, v);
    }
  }

  /** Ranking answers exactly when no overall similarity is NaN; it then
      returns the scored candidates, each once, each with
      `round(100 * overall)`, sorted most similar first, and candidates of
      equal percentage in their input order. */
  lemma RankSpec(cs: seq<Candidate>, overalls: seq<Num>)
    requires |overalls| == |cs|
    requires forall i :: 0 <= i < |cs| && overalls[i].Finite? ==> 0.0 <= overalls[i].r <= 1.0
    ensures Rank(cs, overalls).Some? <==> forall i :: 0 <= i < |cs| ==> overalls[i].Finite?
    ensures Rank(cs, overalls).Some? ==>
              var scored := ScoreEach(cs, overalls).value;
              var r := Rank(cs, overalls).value;
              && multiset(r) == multiset(scored)
              && SortedDescending(r)
              && (forall m :: m in r ==>
                    exists i :: 0 <= i < |cs| && overalls[i].Finite?
                                && m == Match(cs[i], Percent(overalls[i].r)))
              && (forall m :: m in r ==> 0 <= m.similarity <= 100)
              && (forall v :: WithSimilarity(r, v) == WithSimilarity(scored, v))
  {
    ScoreEachSpec(cs, overalls);
    if ScoreEach(cs, overalls).Some? {
      var ms := ScoreEach(cs, overalls).value;
      var r := SortBySimilarity(ms);
      SortSpec(ms);
      forall m | m in r
        ensures exists i :: 0 <= i < |cs| && overalls[i].Finite? && m == Match(cs[i], Percent(overalls[i].r))
        ensures 0 <= m.similarity <= 100
      {
        assert m in multiset(ms);
        var i :| 0 <= i < |ms| && ms[i] == m;
      }
    }
  }

  /** `calculateSimilarities` answers exactly when no detailed similarity is
      NaN. It then returns the candidates in search order, each with
      `round(100 * overall)` of its detailed similarity, permuted into
      non-increasing order of percentage, equal percentages keeping their
      search order; every percentage lies in [0, 100]. */
  lemma CalculateSimilaritiesSpec(text: string, cs: seq<Candidate>)
    ensures CalculateSimilarities(text, cs).Some?
            <==> forall i :: 0 <= i < |cs| ==> DetailedSimilarity(text, cs[i].text).overallSimilarity.Finite?
    ensures CalculateSimilarities(text, cs).Some? ==>
              var scored := ScoreEach(cs, Overalls(text, cs)).value;
              var r := CalculateSimilarities(text, cs).value;
              && |scored| == |cs|
              && (forall i :: 0 <= i < |cs| ==>
                    scored[i] == Match(cs[i], Percent(DetailedSimilarity(text, cs[i].text).overallSimilarity.r)))
              && multiset(r) == multiset(scored)
              && SortedDescending(r)
              && (forall v :: WithSimilarity(r, v) == WithSimilarity(scored, v))
              && (forall m :: m in r ==> 0 <= m.similarity <= 100)
  {
    OverallsAt(text, cs);
    OverallsBounded(text, cs);
    ScoreEachSpec(cs, Overalls(text, cs));
    RankSpec(cs, Overalls(text, cs));
  }
}
