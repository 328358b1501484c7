/** Two list helpers of the storage-backed search: remembering a post once
    per URL (background.js:327-331) and picking at most five similar stored
    posts, high-similarity ones first (background.js:491-514). */
module Storage {
  import opened Wrappers
  import opened Ranking

  /** `storedPosts.some(p => p.url === currentPost.url)`. */
  predicate HasUrl(posts: seq<Candidate>, url: string) {
    exists i :: 0 <= i < |posts| && posts[i].url == url
  }

  /** Store the current post if no stored post has its URL. */
  function RememberPost(posts: seq<Candidate>, current: Candidate): (r: seq<Candidate>)
    ensures HasUrl(posts, current.url) ==> r == posts
    ensures !HasUrl(posts, current.url) ==> r == posts + [current]
  {
    if HasUrl(posts, current.url) then posts else posts + [current]
  }

  /** No two stored posts share a URL. */
  ghost predicate DistinctUrls(posts: seq<Candidate>) {
    forall i, j :: 0 <= i < j < |posts| ==> posts[i].url != posts[j].url
  }

  /** Remembering keeps URLs distinct, makes the URL known, and remembering
      the same post twice changes nothing more. */
  lemma RememberPostSpec(posts: seq<Candidate>, current: Candidate)
    requires DistinctUrls(posts)
    ensures DistinctUrls(RememberPost(posts, current))
    ensures HasUrl(RememberPost(posts, current), current.url)
    ensures RememberPost(RememberPost(posts, current), current) == RememberPost(posts, current)
  {
    var r := RememberPost(posts, current);
    if !HasUrl(posts, current.url) {
      assert r[|posts|] == current;
    }
  }

  /** A stored post with its overall similarity to the analysed post. */
  datatype SimilarPost = SimilarPost(post: Candidate, similarity: real)

  /** `.filter(post => post.similarity > 0.3)`: a NaN similarity fails the
      test, so only numbers above the threshold remain. Every post that
      passes is kept, and AboveThresholdAppend shows the order is kept. */
  function AboveThreshold(scored: seq<(Candidate, Num)>): (r: seq<SimilarPost>)
    ensures |r| <= |scored|
    ensures forall p :: p in r ==> p.similarity > 0.3 && (p.post, Finite(p.similarity)) in scored
    ensures forall i :: 0 <= i < |scored| && scored[i].1.Finite? && scored[i].1.r > 0.3 ==>
              SimilarPost(scored[i].0, scored[i].1.r) in r
  {
    if scored == [] then []
    else
      var (c, s) := scored[0];
      assert forall i :: 1 <= i < |scored| ==> scored[i] == scored[1..][i - 1];
      (if s.Finite? && s.r > 0.3 then [SimilarPost(c, s.r)] else []) + AboveThreshold(scored[1..])
  }

  /** The filter keeps the order: filtering a concatenation concatenates
      the filtered parts. */
  lemma {:induction false} AboveThresholdAppend(a: seq<(Candidate, Num)>, b: seq<(Candidate, Num)>)
    ensures AboveThreshold(a + b) == AboveThreshold(a) + AboveThreshold(b)
  {
    if a == [] {
      assert a + b == b;
    } else {
      assert (a + b)[0] == a[0];
      assert (a + b)[1..] == a[1..] + b;
      AboveThresholdAppend(a[1..], b);
    }
  }

  predicate High(p: SimilarPost) { p.similarity > 0.7 }
  predicate Medium(p: SimilarPost) { 0.5 < p.similarity <= 0.7 }
  predicate Low(p: SimilarPost) { p.similarity <= 0.5 }

  /** `ps.filter(keep)`: exactly the posts that pass, in order
      (WhereAppend). */
  function Where(ps: seq<SimilarPost>, keep: SimilarPost -> bool): (r: seq<SimilarPost>)
    ensures |r| <= |ps|
    ensures forall p :: p in r <==> p in ps && keep(p)
  {
    if ps == [] then []
    else
      assert forall p :: p in ps <==> p == ps[0] || p in ps[1..];
      (if keep(ps[0]) then [ps[0]] else []) + Where(ps[1..], keep)
  }

  /** `ps.slice(0, n)`: the first `n` posts, or all of them when there are
      fewer. */
  function Take(ps: seq<SimilarPost>, n: nat): (r: seq<SimilarPost>)
    ensures |r| == Min(n, |ps|)
    ensures r == ps[..|r|]
  {
    if |ps| <= n then ps else ps[..n]
  }

  /** `[...high, ...medium.slice(0, 2), ...low.slice(0, 1)].slice(0, 5)`. */
  function SelectSimilar(all: seq<SimilarPost>): seq<SimilarPost> {
    Take(Where(all, High) + Take(Where(all, Medium), 2) + Take(Where(all, Low), 1), 5)
  }

  /** At most five posts, all from the input; the high-similarity posts come
      first and are never displaced by weaker ones; then come the first two
      medium and the first low post, while fewer than five are taken. */
  lemma SelectSimilarSpec(all: seq<SimilarPost>)
    ensures |SelectSimilar(all)|
            == Min(5, |Where(all, High)| + Min(2, |Where(all, Medium)|) + Min(1, |Where(all, Low)|))
    ensures forall p :: p in SelectSimilar(all) ==> p in all
    ensures SelectSimilar(all)[..Min(5, |Where(all, High)|)] == Where(all, High)[..Min(5, |Where(all, High)|)]
    ensures Where(SelectSimilar(all), Medium) <= Where(all, Medium)
    ensures Where(SelectSimilar(all), Low) <= Where(all, Low)
    ensures |Where(SelectSimilar(all), Medium)| <= 2
    ensures |Where(SelectSimilar(all), Low)| <= 1
  {
    SelectSimilarShape(all);
    SelectSimilarBands(all);
  }

  /** How many posts are taken, where they come from, and that the
      high-similarity ones lead. */
  lemma SelectSimilarShape(all: seq<SimilarPost>)
    ensures |SelectSimilar(all)|
            == Min(5, |Where(all, High)| + Min(2, |Where(all, Medium)|) + Min(1, |Where(all, Low)|))
    ensures forall p :: p in SelectSimilar(all) ==> p in all
    ensures SelectSimilar(all)[..Min(5, |Where(all, High)|)] == Where(all, High)[..Min(5, |Where(all, High)|)]
  {
    var h, m, l := Where(all, High), Take(Where(all, Medium), 2), Take(Where(all, Low), 1);
    var joined := h + m + l;
    var r := SelectSimilar(all);
    assert r == Take(joined, 5);
    assert |joined| == |h| + Min(2, |Where(all, Medium)|) + Min(1, |Where(all, Low)|);
    forall p | p in r ensures p in all {
      assert p in joined;
    }
    assert r[..Min(5, |h|)] == joined[..Min(5, |h|)] == h[..Min(5, |h|)];
  }

  /** The medium and low posts taken are the first ones of their band. */
  lemma SelectSimilarBands(all: seq<SimilarPost>)
    ensures Where(SelectSimilar(all), Medium) <= Where(all, Medium)
    ensures Where(SelectSimilar(all), Low) <= Where(all, Low)
    ensures |Where(SelectSimilar(all), Medium)| <= 2
    ensures |Where(SelectSimilar(all), Low)| <= 1
  {
    var h, m, l := Where(all, High), Take(Where(all, Medium), 2), Take(Where(all, Low), 1);
    var joined := h + m + l;
    assert SelectSimilar(all) == joined[..Min(5, |joined|)];
    BucketPrefix(h, m, l, Min(5, |joined|), Medium);
    BucketPrefix(h, m, l, Min(5, |joined|), Low);
  }

  /** In a prefix of `h + m + l`, the posts of the medium (low) band are a
      prefix of `m` (`l`), when the other parts hold none of that band. */
  lemma BucketPrefix(h: seq<SimilarPost>, m: seq<SimilarPost>, l: seq<SimilarPost>, n: nat, band: SimilarPost -> bool)
    requires n <= |h + m + l|
    requires forall p :: p in h ==> High(p)
    requires band == Medium || band == Low
    requires forall p :: p in m ==> Medium(p)
    requires forall p :: p in l ==> Low(p)
    ensures band == Medium ==> Where((h + m + l)[..n], band) <= m
    ensures band == Low ==> Where((h + m + l)[..n], band) <= l
  {
    WherePrefix(h + m + l, n, band);
    WhereAppend(h + m, l, band);
    WhereAppend(h, m, band);
    WhereNone(h, band);
    if band == Medium {
      WhereNone(l, band);
      WhereAll(m, band);
      assert Where(h + m + l, band) == m;
    } else {
      WhereNone(m, band);
      WhereAll(l, band);
      assert Where(h + m + l, band) == l;
    }
  }

  lemma {:induction false} WhereAppend(a: seq<SimilarPost>, b: seq<SimilarPost>, keep: SimilarPost -> bool)
    ensures Where(a + b, keep) == Where(a, keep) + Where(b, keep)
  {
    if a == [] {
      assert a + b == b;
    } else {
      var head := if keep(a[0]) then [a[0]] else [];
      assert (a + b)[0] == a[0];
      assert (a + b)[1..] == a[1..] + b;
      WhereAppend(a[1..], b, keep);
      calc {
        Where(a + b, keep);
        head + Where(a[1..] + b, keep);
        head + (Where(a[1..], keep) + Where(b, keep));
        (head + Where(a[1..], keep)) + Where(b, keep);
      }
    }
  }

  /** Filtering a prefix gives a prefix of the filtered list. */
  lemma WherePrefix(s: seq<SimilarPost>, n: nat, keep: SimilarPost -> bool)
    requires n <= |s|
    ensures Where(s[..n], keep) <= Where(s, keep)
  {
    assert s == s[..n] + s[n..];
    WhereAppend(s[..n], s[n..], keep);
  }

  lemma {:induction false} WhereAll(s: seq<SimilarPost>, keep: SimilarPost -> bool)
    requires forall p :: p in s ==> keep(p)
    ensures Where(s, keep) == s
  {
    if s != [] {
      WhereAll(s[1..], keep);
      assert s == [s[0]] + s[1..];
    }
  }

  lemma {:induction false} WhereNone(s: seq<SimilarPost>, keep: SimilarPost -> bool)
    requires forall p :: p in s ==> !keep(p)
    ensures Where(s, keep) == []
  {
    if s != [] {
      WhereNone(s[1..], keep);
    }
  }
}
