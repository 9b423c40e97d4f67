/**
  The transition model: the distribution of the random surfer's next page,
  given the page it is on. Probabilities are exact rationals.
 */
module Transition {
  import opened Sums
  import opened Pages

  /**
    The surfer's next-page distribution. From a page without links every page
    is equally likely; otherwise a linked page is followed with probability
    `d`, split evenly among the links, and with probability `1 - d` the surfer
    jumps to a page chosen uniformly from the whole corpus.
   */
  ghost function Transition(corpus: Corpus, page: Page, d: real): map<Page, real>
    requires page in corpus
  {
    var n := |corpus| as real;
    var links := corpus[page];
    map q | q in corpus ::
      if links == {} then 1.0 / n
      else (if q in links then d / |links| as real else 0.0) + (1.0 - d) / n
  }

  /**
    `transition_model`: start every page at 0, then either set each to `1/N`
    (no links) or add `d/|links|` to each linked page and `(1-d)/N` to every page.
   */
  method TransitionModel(corpus: Corpus, page: Page, d: real) returns (dist: map<Page, real>)
    requires page in corpus
    ensures dist.Keys == corpus.Keys
    ensures corpus[page] == {} ==> forall q :: q in dist ==> dist[q] == 1.0 / |corpus| as real
    ensures corpus[page] != {} ==> forall q :: q in dist && q in corpus[page] ==>
      dist[q] == d / |corpus[page]| as real + (1.0 - d) / |corpus| as real
    ensures corpus[page] != {} ==> forall q :: q in dist && q !in corpus[page] ==>
      dist[q] == (1.0 - d) / |corpus| as real
    ensures dist == Transition(corpus, page, d)
  {
    dist := map q | q in corpus :: 0.0;
    ghost var target := Transition(corpus, page, d);
    var todo := dist.Keys;
    if |corpus[page]| == 0 {
      while todo != {}
        invariant todo <= corpus.Keys && dist.Keys == corpus.Keys
        invariant forall q :: q in dist ==> dist[q] == if q in todo then 0.0 else target[q]
        decreases todo
      {
        var q :| q in todo;
        dist := dist[q := 1.0 / |corpus| as real];
        todo := todo - {q};
      }
    } else {
      var linkProb := d / |corpus[page]| as real;
      var randomProb := (1.0 - d) / |corpus| as real;
      while todo != {}
        invariant todo <= corpus.Keys && dist.Keys == corpus.Keys
        invariant forall q :: q in dist ==> dist[q] == if q in todo then 0.0 else target[q]
        decreases todo
      {
        var q :| q in todo;
        if q in corpus[page] {
          dist := dist[q := dist[q] + linkProb];
        }
        dist := dist[q := dist[q] + randomProb];
        todo := todo - {q};
      }
    }
    assert dist == target;
  }

  /**
    With `0 <= d <= 1` no page gets a negative probability, and with `d < 1`
    every page, linked or not, can be reached in one step.
   */
  lemma TransitionNonNegative(corpus: Corpus, page: Page, d: real)
    requires page in corpus
    requires 0.0 <= d <= 1.0
    ensures Transition(corpus, page, d).Keys == corpus.Keys
    ensures forall q :: q in corpus ==> 0.0 <= Transition(corpus, page, d)[q]
    ensures d < 1.0 ==> forall q :: q in corpus ==> 0.0 < Transition(corpus, page, d)[q]
  {
    var n := |corpus| as real;
    assert 0.0 < n by { assert page in corpus.Keys; }
    assert 0.0 < 1.0 / n;
    assert 0.0 <= (1.0 - d) / n;
    assert d < 1.0 ==> 0.0 < (1.0 - d) / n;
    assert corpus[page] != {} ==> 0.0 <= d / |corpus[page]| as real;
  }

  /**
    When the page's links are all pages of the corpus, the probabilities of
    the transition model add up to exactly 1, whatever the damping factor.
   */
  lemma TransitionSumsToOne(corpus: Corpus, page: Page, d: real)
    requires page in corpus && corpus[page] <= corpus.Keys
    ensures Sum(Transition(corpus, page, d)) == 1.0
  {
    var t := Transition(corpus, page, d);
    var n := |corpus| as real;
    var links := corpus[page];
    assert 0.0 < n by { assert page in corpus.Keys; }
    if links == {} {
      assert t == map q | q in corpus.Keys :: 1.0 / n;
      SumSpread(corpus.Keys, 1.0);
    } else {
      var follow := map q | q in corpus.Keys :: if q in links then d / |links| as real else 0.0;
      var jump := map q | q in corpus.Keys :: (1.0 - d) / n;
      assert t == map q | q in follow :: follow[q] + jump[q];
      SumAdd(follow, jump);
      SumSplit(corpus.Keys, links, d);
      SumSpread(corpus.Keys, 1.0 - d);
    }
  }

  /** Mass `x` split evenly over a non-empty set sums back to `x`. */
  lemma SumSpread(s: set<Page>, x: real)
    requires s != {}
    ensures Sum(map q | q in s :: x / |s| as real) == x
  {
    SumConst(s, x / |s| as real);
  }

  /** Mass `x` split evenly over the members of `l` and zero elsewhere sums back to `x`. */
  lemma SumSplit(s: set<Page>, l: set<Page>, x: real)
    requires l != {} && l <= s
    ensures Sum(map q | q in s :: if q in l then x / |l| as real else 0.0) == x
  {
    SumIndicator(s, l, x / |l| as real);
  }
}
