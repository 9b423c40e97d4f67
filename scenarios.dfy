/**
  Small corpora on which the estimators' answers can be worked out by hand:
  a symmetric two-page cycle, a two-page corpus with a page without links,
  and a corpus of one page.
 */
module Scenarios {
  import opened Sums
  import opened Pages
  import opened Iteration
  import opened Sampling

  /** Two pages that link to each other. */
  const TwoCycle: Corpus := map["A.html" := {"B.html"}, "B.html" := {"A.html"}]

  /** Page A has no links; page B links to A. */
  const DanglingPair: Corpus := map["A.html" := {}, "B.html" := {"A.html"}]

  /** A corpus of one page without links. */
  const Single: Corpus := map["A.html" := {}]

  /** The ranks solving the update equation of `DanglingPair` at `d = 0.85`. */
  const DanglingPairRanks: map<Page, real> := map["A.html" := 37.0 / 57.0, "B.html" := 20.0 / 57.0]

  /** A map with exactly the keys `a` and `b` sums to its two values. */
  lemma SumOfTwo(m: map<Page, real>, a: Page, b: Page)
    requires a != b && m.Keys == {a, b}
    ensures Sum(m) == m[a] + m[b]
  {
    assert m == map[a := m[a], b := m[b]];
    SumPair(a, m[a], b, m[b]);
  }

  /** A map with exactly the key `a` sums to its value. */
  lemma SumOfOne(m: map<Page, real>, a: Page)
    requires m.Keys == {a}
    ensures Sum(m) == m[a]
  {
    assert m == map[][a := m[a]];
    SumInsert(map[], a, m[a]);
  }

  /** In a two-page corpus a page's new rank is `(1-d)/2` plus the shares of both pages. */
  lemma TwoPageUpdate(corpus: Corpus, d: real, rank: map<Page, real>, a: Page, b: Page, p: Page)
    requires a != b && corpus.Keys == {a, b} && rank.Keys == corpus.Keys && p in corpus
    ensures Step(corpus, d, rank)[p]
         == (1.0 - d) / |corpus| as real + Share(corpus, d, rank, a, p) + Share(corpus, d, rank, b, p)
  {
    var inflow := Inflow(corpus, d, rank, p);
    StepIsSum(corpus, d, rank, p);
    SumOfTwo(inflow, a, b);
    InflowAt(corpus, d, rank, p, a);
    InflowAt(corpus, d, rank, p, b);
  }

  /** In a one-page corpus the page's new rank is `1-d` plus its share to itself. */
  lemma OnePageUpdate(corpus: Corpus, d: real, rank: map<Page, real>, a: Page)
    requires corpus.Keys == {a} && rank.Keys == corpus.Keys
    ensures Step(corpus, d, rank)[a] == (1.0 - d) / |corpus| as real + Share(corpus, d, rank, a, a)
  {
    StepIsSum(corpus, d, rank, a);
    SumOfOne(Inflow(corpus, d, rank, a), a);
    InflowAt(corpus, d, rank, a, a);
  }

  /** A page passes `d` times its rank, split evenly, to each page it links to. */
  lemma ShareFollowed(corpus: Corpus, d: real, rank: map<Page, real>, q: Page, p: Page)
    requires q in corpus && q in rank && p in corpus[q]
    ensures Share(corpus, d, rank, q, p) == d * (rank[q] / |corpus[q]| as real)
  {
  }

  /** A page with links passes nothing to a page it does not link to. */
  lemma ShareNotFollowed(corpus: Corpus, d: real, rank: map<Page, real>, q: Page, p: Page)
    requires q in corpus && q in rank && corpus[q] != {} && p !in corpus[q]
    ensures Share(corpus, d, rank, q, p) == 0.0
  {
  }

  /** A page without links passes `d` times its rank, split evenly, to every page. */
  lemma ShareSpread(corpus: Corpus, d: real, rank: map<Page, real>, q: Page, p: Page)
    requires q in corpus && q in rank && corpus[q] == {}
    ensures Share(corpus, d, rank, q, p) == d * (rank[q] / |corpus| as real)
  {
  }

  /** The uniform start of the two-cycle is `1/2` each and is left unchanged by an update. */
  lemma TwoCycleFixedPoint(d: real)
    ensures Uniform(TwoCycle) == map["A.html" := 0.5, "B.html" := 0.5]
    ensures Step(TwoCycle, d, Uniform(TwoCycle)) == Uniform(TwoCycle)
  {
    var a, b := "A.html", "B.html";
    assert a != b by { assert a[0] != b[0]; }
    assert TwoCycle.Keys == {a, b};
    assert |TwoCycle| == 2 by { assert |TwoCycle.Keys| == |{a, b}| == 2; }
    var u := Uniform(TwoCycle);
    assert u == map[a := 0.5, b := 0.5];
    assert |TwoCycle[a]| == 1 && |TwoCycle[b]| == 1;
    CycleUpdate(d, u, a, b, a, b);
    CycleUpdate(d, u, a, b, b, a);
  }

  /** On the two-cycle at ranks `1/2`, a page keeps nothing for itself and gets `d/2` from the other. */
  lemma CycleUpdate(d: real, u: map<Page, real>, a: Page, b: Page, p: Page, other: Page)
    requires a != b && TwoCycle.Keys == {a, b} && |TwoCycle| == 2
    requires u.Keys == {a, b} && u[a] == 0.5 && u[b] == 0.5
    requires p in TwoCycle && other in TwoCycle && {p, other} == {a, b} && p != other
    requires TwoCycle[p] == {other} && TwoCycle[other] == {p} && |TwoCycle[other]| == 1
    ensures Step(TwoCycle, d, u)[p] == 0.5
  {
    TwoPageUpdate(TwoCycle, d, u, p, other, p);
    ShareNotFollowed(TwoCycle, d, u, p, p);
    ShareFollowed(TwoCycle, d, u, other, p);
    Halves(d, Step(TwoCycle, d, u)[p], Share(TwoCycle, d, u, other, p));
  }

  /** The arithmetic of `CycleUpdate`. */
  lemma Halves(d: real, v: real, y: real)
    requires v == (1.0 - d) / 2.0 + 0.0 + y && y == d * (0.5 / 1.0)
    ensures v == 0.5
  {
  }

  /**
    On the two-cycle the iteration stops after its first update and answers
    the uniform ranks `{A: 0.5, B: 0.5}`, whatever the damping factor.
   */
  method TwoCycleRanks(d: real) returns (ranks: Option<map<Page, real>>)
    ensures ranks == Some(map["A.html" := 0.5, "B.html" := 0.5])
  {
    TwoCycleFixedPoint(d);
    FixedPointConverged(TwoCycle, d, Uniform(TwoCycle));
    assert Converged(TwoCycle, d, Iterates(TwoCycle, d, 0));
    ghost var rounds;
    ranks, rounds := IteratePageRank(TwoCycle, d, 1);
  }

  /**
    With `d = 0.85`, A at `37/57` and B at `20/57` is left unchanged by an
    update: A receives all of B's passed-on rank and half of its own.
   */
  lemma DanglingPairFixedPoint()
    ensures Step(DanglingPair, 0.85, DanglingPairRanks) == DanglingPairRanks
    ensures Converged(DanglingPair, 0.85, DanglingPairRanks)
  {
    var a, b := "A.html", "B.html";
    assert a != b by { assert a[0] != b[0]; }
    assert DanglingPair.Keys == {a, b};
    assert |DanglingPair| == 2 by { assert |DanglingPair.Keys| == |{a, b}| == 2; }
    assert |DanglingPair[b]| == 1;
    var r := DanglingPairRanks;
    DanglingPairUpdate(r, a, b);
    FixedPointConverged(DanglingPair, 0.85, r);
  }

  /** Each page of `DanglingPair` gets back its rank in `DanglingPairRanks`. */
  lemma DanglingPairUpdate(r: map<Page, real>, a: Page, b: Page)
    requires a != b && DanglingPair.Keys == {a, b} && |DanglingPair| == 2
    requires DanglingPair[a] == {} && DanglingPair[b] == {a} && |DanglingPair[b]| == 1
    requires r.Keys == {a, b} && r[a] == 37.0 / 57.0 && r[b] == 20.0 / 57.0
    ensures Step(DanglingPair, 0.85, r) == r
  {
    var next := Step(DanglingPair, 0.85, r);
    TwoPageUpdate(DanglingPair, 0.85, r, a, b, a);
    ShareSpread(DanglingPair, 0.85, r, a, a);
    ShareFollowed(DanglingPair, 0.85, r, b, a);
    TwoPageUpdate(DanglingPair, 0.85, r, a, b, b);
    ShareSpread(DanglingPair, 0.85, r, a, b);
    ShareNotFollowed(DanglingPair, 0.85, r, b, b);
    DanglingArithmetic(next[a], next[b], Share(DanglingPair, 0.85, r, a, a),
      Share(DanglingPair, 0.85, r, b, a), Share(DanglingPair, 0.85, r, a, b));
  }

  /** The arithmetic of `DanglingPairUpdate`. */
  lemma DanglingArithmetic(va: real, vb: real, aa: real, ba: real, ab: real)
    requires aa == 0.85 * ((37.0 / 57.0) / 2.0) && ba == 0.85 * ((20.0 / 57.0) / 1.0)
    requires ab == 0.85 * ((37.0 / 57.0) / 2.0)
    requires va == (1.0 - 0.85) / 2.0 + aa + ba && vb == (1.0 - 0.85) / 2.0 + ab + 0.0
    ensures va == 37.0 / 57.0 && vb == 20.0 / 57.0
  {
  }

  /** A single page starts at rank 1 and an update leaves it there. */
  lemma SingleFixedPoint(d: real)
    ensures Uniform(Single) == map["A.html" := 1.0]
    ensures Step(Single, d, Uniform(Single)) == Uniform(Single)
  {
    var a := "A.html";
    assert Single.Keys == {a};
    assert |Single| == 1 by { assert |Single.Keys| == |{a}| == 1; }
    var u := Uniform(Single);
    assert u == map[a := 1.0];
    var next := Step(Single, d, u);
    OnePageUpdate(Single, d, u, a);
    ShareSpread(Single, d, u, a, a);
    Whole(d, next[a], Share(Single, d, u, a, a));
    assert next == u;
  }

  /** The arithmetic of `SingleFixedPoint`. */
  lemma Whole(d: real, v: real, x: real)
    requires v == (1.0 - d) / 1.0 + x && x == d * (1.0 / 1.0)
    ensures v == 1.0
  {
  }

  /** On a single page the iteration answers rank 1 after its first update. */
  method SingleRanks(d: real) returns (ranks: Option<map<Page, real>>)
    ensures ranks == Some(map["A.html" := 1.0])
  {
    SingleFixedPoint(d);
    FixedPointConverged(Single, d, Uniform(Single));
    assert Converged(Single, d, Iterates(Single, d, 0));
    ghost var rounds;
    ranks, rounds := IteratePageRank(Single, d, 1);
  }

  /** On a single page the sampler answers rank 1, whatever `n` and the draws. */
  method SingleSample(d: real, n: nat, draws: seq<Page>) returns (ranks: map<Page, real>)
    requires n >= 1 && |draws| == n && forall i :: 0 <= i < n ==> draws[i] in Single
    ensures ranks == map["A.html" := 1.0]
  {
    var a := "A.html";
    assert Single.Keys == {a};
    ranks := SamplePageRank(Single, d, n, a, draws);
    SumOfOne(ranks, a);
  }
}
