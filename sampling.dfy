/**
  The sampling estimator: a random surfer walks `n` steps and each page's rank
  is the fraction of steps spent on it.

  The random draws are an oracle: `start` is the page chosen uniformly among
  all pages, and `draws[i]` is the page drawn from the transition model after
  the `i`-th visit. The walk visits `start`, then `draws[0]`, `draws[1]`, and
  so on; the draw made after the last visit is never counted.
 */
module Sampling {
  import opened Sums
  import opened Pages
  import opened Transition

  /** The first `n` pages the surfer visits. */
  function Walk(start: Page, draws: seq<Page>, n: nat): (w: seq<Page>)
    requires n <= |draws|
    ensures |w| == n && (n > 0 ==> w[0] == start)
    ensures forall i :: 0 < i < n ==> w[i] == draws[i - 1]
  {
    ([start] + draws)[..n]
  }

  /**
    The walk of `sample_pagerank`: at each of the `n` steps add one visit to
    the current page, compute its transition model, and move to the page the
    oracle draws from it.
   */
  method CountVisits(corpus: Corpus, d: real, n: nat, start: Page, draws: seq<Page>)
    returns (visits: map<Page, nat>)
    requires start in corpus
    requires |draws| == n && forall i :: 0 <= i < n ==> draws[i] in corpus
    ensures visits.Keys == corpus.Keys
    ensures forall p :: p in visits ==> visits[p] == multiset(Walk(start, draws, n))[p]
  {
    visits := map p | p in corpus :: 0;
    var current := start;
    for i := 0 to n
      invariant current in corpus && current == ([start] + draws)[i]
      invariant visits.Keys == corpus.Keys
      invariant forall p :: p in visits ==> visits[p] == multiset(Walk(start, draws, i))[p]
    {
      visits := visits[current := visits[current] + 1];
      assert Walk(start, draws, i + 1) == Walk(start, draws, i) + [current];
      var dist := TransitionModel(corpus, current, d);
      current := draws[i];
    }
  }

  /**
    `sample_pagerank`: each page's rank is its share of the `n` visits, a
    value in [0, 1], and the ranks sum to exactly 1.
   */
  method SamplePageRank(corpus: Corpus, d: real, n: nat, start: Page, draws: seq<Page>)
    returns (ranks: map<Page, real>)
    requires n >= 1
    requires start in corpus
    requires |draws| == n && forall i :: 0 <= i < n ==> draws[i] in corpus
    ensures ranks.Keys == corpus.Keys
    ensures forall p :: p in ranks ==> ranks[p] == multiset(Walk(start, draws, n))[p] as real / n as real
    ensures forall p :: p in ranks ==> 0.0 <= ranks[p] <= 1.0
    ensures Sum(ranks) == 1.0
  {
    var visits := CountVisits(corpus, d, n, start, draws);
    ranks := map p | p in visits :: visits[p] as real / n as real;
    ghost var walk := Walk(start, draws, n);
    assert Sum(ranks) == 1.0 by {
      assert ranks == Frequencies(corpus.Keys, walk, n);
      VisitFrequenciesSumToOne(corpus.Keys, walk, n);
    }
    forall p | p in ranks ensures 0.0 <= ranks[p] <= 1.0 {
      FrequencyBound(walk, p, n);
    }
  }

  /** A page's frequency in an `n`-step walk lies between 0 and 1. */
  lemma FrequencyBound(w: seq<Page>, p: Page, n: nat)
    requires n >= 1 && |w| == n
    ensures 0.0 <= multiset(w)[p] as real / n as real <= 1.0
  {
    MultiplicityBound(w, p);
    RatioBound(multiset(w)[p] as real, n as real);
  }

  /** A quantity between 0 and `n` divided by `n` lies between 0 and 1. */
  lemma RatioBound(a: real, n: real)
    requires 0.0 <= a <= n && n > 0.0
    ensures 0.0 <= a / n <= 1.0
  {
  }

  /** A page occurs in a walk at most as often as the walk is long. */
  lemma {:induction false} MultiplicityBound(w: seq<Page>, p: Page)
    ensures multiset(w)[p] <= |w|
  {
    if w != [] {
      MultiplicityBound(w[..|w| - 1], p);
      assert w == w[..|w| - 1] + [w[|w| - 1]];
    }
  }

  /** The share of the walk's steps spent on each page of the corpus. */
  ghost function Frequencies(pages: set<Page>, w: seq<Page>, n: nat): map<Page, real>
    requires n >= 1
  {
    map p | p in pages :: multiset(w)[p] as real / n as real
  }

  /**
    When every visited page is a page of the corpus, the frequencies add up to
    `|w| / n`: each step increments exactly one counter, adding `1/n`.
   */
  lemma {:induction false} FrequenciesSum(pages: set<Page>, w: seq<Page>, n: nat)
    requires n >= 1
    requires forall i :: 0 <= i < |w| ==> w[i] in pages
    ensures Sum(Frequencies(pages, w, n)) == |w| as real / n as real
  {
    if w == [] {
      SumConst(pages, 0.0);
      assert Frequencies(pages, w, n) == Constant(pages, 0.0);
    } else {
      var u, x := w[..|w| - 1], w[|w| - 1];
      assert w == u + [x];
      var nr := n as real;
      var before := Frequencies(pages, u, n);
      var visit := Indicator(pages, {x}, 1.0 / nr);
      assert Sum(before) == |u| as real / nr by {
        FrequenciesSum(pages, u, n);
      }
      assert Sum(visit) == 1.0 / nr by {
        SumIndicator(pages, {x}, 1.0 / nr);
        assert |{x}| == 1;
      }
      assert Sum(Frequencies(pages, w, n)) == Sum(before) + Sum(visit) by {
        FrequenciesAppend(pages, u, x, n);
        SumAdd(before, visit);
      }
      OneMoreVisit(|u| as real, nr);
    }
  }

  /** Visiting `x` once more raises the frequency of `x` by `1/n` and no other. */
  lemma FrequenciesAppend(pages: set<Page>, u: seq<Page>, x: Page, n: nat)
    requires n >= 1 && x in pages
    ensures Frequencies(pages, u + [x], n)
         == Plus(Frequencies(pages, u, n), Indicator(pages, {x}, 1.0 / n as real))
  {
    assert multiset(u + [x]) == multiset(u) + multiset{x};
    forall p | p in pages
      ensures Frequencies(pages, u + [x], n)[p]
           == Frequencies(pages, u, n)[p] + Indicator(pages, {x}, 1.0 / n as real)[p]
    {
      OneMoreVisit(multiset(u)[p] as real, n as real);
    }
  }

  /** One more visit adds `1/n` to a frequency. */
  lemma OneMoreVisit(a: real, n: real)
    requires n > 0.0
    ensures (a + 1.0) / n == a / n + 1.0 / n
  {
  }

  /** The frequencies of an `n`-step walk sum to exactly 1. */
  lemma VisitFrequenciesSumToOne(pages: set<Page>, w: seq<Page>, n: nat)
    requires n >= 1 && |w| == n
    requires forall i :: 0 <= i < |w| ==> w[i] in pages
    ensures Sum(Frequencies(pages, w, n)) == 1.0
  {
    FrequenciesSum(pages, w, n);
    var total := Sum(Frequencies(pages, w, n));
    assert total == |w| as real / n as real;
    SelfRatio(n as real);
  }

  lemma SelfRatio(x: real)
    requires x > 0.0
    ensures x / x == 1.0
  {
  }
}
