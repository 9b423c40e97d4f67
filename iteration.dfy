/**
  The iterative estimator: start every page at `1/N` and apply the PageRank
  update until no page's rank moves by `Tolerance` or more.

  The source loops without a bound; here the loop is given `fuel` rounds and
  reports `None` when they run out.
 */
module Iteration {
  import opened Sums
  import opened Pages

  datatype Option<T> = None | Some(value: T)

  /** The loop stops once the largest change of a rank is below this. */
  const Tolerance: real := 0.001

  function Abs(x: real): (r: real)
    ensures 0.0 <= r && (r == x || r == -x)
  {
    if x < 0.0 then -x else x
  }

  /** Every page starts at `1/N`. */
  function Uniform(corpus: Corpus): (u: map<Page, real>)
    ensures u.Keys == corpus.Keys
    ensures corpus != map[] ==> Sum(u) == 1.0
    ensures forall p :: p in u ==> 0.0 < u[p]
  {
    var u := map p | p in corpus :: 1.0 / |corpus| as real;
    assert corpus != map[] ==> Sum(u) == 1.0 by {
      if corpus != map[] {
        var n := |corpus| as real;
        assert u == Constant(corpus.Keys, 1.0 / n);
        SumConst(corpus.Keys, 1.0 / n);
        Cancel(n, 1.0);
      }
    }
    u
  }

  /**
    The rank page `q` passes to page `p` in one update: a page with links
    splits `d` times its rank evenly among them, and a page without links
    spreads `d` times its rank over every page of the corpus.
   */
  ghost function Share(corpus: Corpus, d: real, rank: map<Page, real>, q: Page, p: Page): real
    requires q in corpus && q in rank
  {
    var links := corpus[q];
    if p in links && |links| > 0 then d * (rank[q] / |links| as real)
    else if |links| == 0 then d * (rank[q] / |corpus| as real)
    else 0.0
  }

  /** What every page of the corpus passes to `p`. */
  ghost function Inflow(corpus: Corpus, d: real, rank: map<Page, real>, p: Page): map<Page, real>
    requires rank.Keys == corpus.Keys
  {
    map q | q in corpus :: Share(corpus, d, rank, q, p)
  }

  /** What `q` passes to each page of the corpus. */
  ghost function Outflow(corpus: Corpus, d: real, rank: map<Page, real>, q: Page): map<Page, real>
    requires rank.Keys == corpus.Keys && q in corpus
  {
    map p | p in corpus :: Share(corpus, d, rank, q, p)
  }

  /** What the pages listed in `senders` pass to `p`, added up in list order. */
  ghost function Received(corpus: Corpus, d: real, rank: map<Page, real>, p: Page, senders: seq<Page>): real
    requires rank.Keys == corpus.Keys
    requires forall i :: 0 <= i < |senders| ==> senders[i] in corpus
  {
    if senders == [] then 0.0
    else
      var last := senders[|senders| - 1];
      Received(corpus, d, rank, p, senders[..|senders| - 1]) + Share(corpus, d, rank, last, p)
  }

  /**
    One update: each page gets `(1-d)/N` plus everything passed to it, the
    shares added in the order `Enumerate` lists the pages (`StepIsSum` shows
    the order does not matter).
   */
  ghost function Step(corpus: Corpus, d: real, rank: map<Page, real>): (next: map<Page, real>)
    requires rank.Keys == corpus.Keys
    ensures next.Keys == corpus.Keys
  {
    map p | p in corpus :: (1.0 - d) / |corpus| as real + Received(corpus, d, rank, p, Enumerate(corpus.Keys))
  }

  /** The rank vector after `k` updates of the uniform start. */
  ghost function Iterates(corpus: Corpus, d: real, k: nat): (r: map<Page, real>)
    ensures r.Keys == corpus.Keys
  {
    if k == 0 then Uniform(corpus) else Step(corpus, d, Iterates(corpus, d, k - 1))
  }

  /** No page's rank would change by `Tolerance` or more in one more update. */
  ghost predicate Converged(corpus: Corpus, d: real, rank: map<Page, real>)
    requires rank.Keys == corpus.Keys
  {
    forall p :: p in corpus ==> Abs(Step(corpus, d, rank)[p] - rank[p]) < Tolerance
  }

  /**
    The inner loop of `iterate_pagerank` for one page: start from `(1-d)/N`
    and add the share of every page of the corpus, by the same case split.
   */
  method NewRank(corpus: Corpus, d: real, rank: map<Page, real>, page: Page) returns (value: real)
    requires rank.Keys == corpus.Keys && page in corpus
    ensures value == Step(corpus, d, rank)[page]
  {
    var n := |corpus| as real;
    value := (1.0 - d) / n;
    ghost var done: seq<Page> := [];
    var todo := corpus.Keys;
    while todo != {}
      invariant todo <= corpus.Keys
      invariant forall q :: q in done <==> q in corpus && q !in todo
      invariant Distinct(done)
      invariant value == (1.0 - d) / n + Received(corpus, d, rank, page, done)
      decreases todo
    {
      var other :| other in todo;
      ghost var before := value;
      var links := corpus[other];
      if page in links && |links| > 0 {
        value := value + d * (rank[other] / |links| as real);
      } else if |links| == 0 {
        value := value + d * (rank[other] / n);
      }
      assert value == before + Share(corpus, d, rank, other, page);
      ReceivedAppend(corpus, d, rank, page, done, other);
      DistinctAppend(done, other);
      done := done + [other];
      todo := todo - {other};
    }
    ReceivedAnyOrder(corpus, d, rank, page, done);
  }

  /** Listing one more sender adds its share. */
  lemma ReceivedAppend(corpus: Corpus, d: real, rank: map<Page, real>, p: Page, senders: seq<Page>, q: Page)
    requires rank.Keys == corpus.Keys && q in corpus
    requires forall i :: 0 <= i < |senders| ==> senders[i] in corpus
    ensures Received(corpus, d, rank, p, senders + [q])
         == Received(corpus, d, rank, p, senders) + Share(corpus, d, rank, q, p)
  {
    assert (senders + [q])[..|senders|] == senders;
  }

  /** The shares of the listed senders are the entries of `Inflow` at those senders. */
  lemma {:induction false} ReceivedInOrder(corpus: Corpus, d: real, rank: map<Page, real>, p: Page, senders: seq<Page>)
    requires rank.Keys == corpus.Keys
    requires forall i :: 0 <= i < |senders| ==> senders[i] in corpus
    ensures Received(corpus, d, rank, p, senders) == SumAt(senders, Inflow(corpus, d, rank, p))
  {
    if senders != [] {
      var front, last := senders[..|senders| - 1], senders[|senders| - 1];
      ReceivedInOrder(corpus, d, rank, p, front);
      assert senders == front + [last];
      SumAtAppend(front, Inflow(corpus, d, rank, p), last);
      InflowAt(corpus, d, rank, p, last);
    }
  }

  /** Listing every page of the corpus exactly once, in any order, receives `Sum(Inflow)`. */
  lemma ReceivedAll(corpus: Corpus, d: real, rank: map<Page, real>, p: Page, senders: seq<Page>)
    requires rank.Keys == corpus.Keys
    requires Distinct(senders)
    requires forall q :: q in senders <==> q in corpus
    ensures Received(corpus, d, rank, p, senders) == Sum(Inflow(corpus, d, rank, p))
  {
    ReceivedInOrder(corpus, d, rank, p, senders);
    SumAtAllKeys(senders, Inflow(corpus, d, rank, p));
  }

  /** Each entry of `Step` is `(1-d)/N` plus the sum of everything passed to the page. */
  lemma StepIsSum(corpus: Corpus, d: real, rank: map<Page, real>, p: Page)
    requires rank.Keys == corpus.Keys && p in corpus
    ensures Step(corpus, d, rank)[p] == (1.0 - d) / |corpus| as real + Sum(Inflow(corpus, d, rank, p))
  {
    ReceivedAll(corpus, d, rank, p, Enumerate(corpus.Keys));
  }

  /** Two listings of the same pages, each without repeats, receive the same total. */
  lemma ReceivedAnyOrder(corpus: Corpus, d: real, rank: map<Page, real>, p: Page, senders: seq<Page>)
    requires rank.Keys == corpus.Keys
    requires Distinct(senders)
    requires forall q :: q in senders <==> q in corpus
    ensures Received(corpus, d, rank, p, senders) == Received(corpus, d, rank, p, Enumerate(corpus.Keys))
  {
    ReceivedAll(corpus, d, rank, p, senders);
    ReceivedAll(corpus, d, rank, p, Enumerate(corpus.Keys));
  }

  /** One pass of the outer `for` loop: every page gets its updated rank. */
  method UpdateStep(corpus: Corpus, d: real, rank: map<Page, real>) returns (next: map<Page, real>)
    requires rank.Keys == corpus.Keys
    ensures next == Step(corpus, d, rank)
  {
    next := map p | p in corpus :: 0.0;
    var todo := corpus.Keys;
    while todo != {}
      invariant todo <= corpus.Keys && next.Keys == corpus.Keys
      invariant forall p :: p in next && p !in todo ==> next[p] == Step(corpus, d, rank)[p]
      decreases todo
    {
      var page :| page in todo;
      var value := NewRank(corpus, d, rank, page);
      next := next[page := value];
      todo := todo - {page};
    }
  }

  /** The largest change of a rank between two vectors, or 0 for an empty corpus. */
  method MaxRankChange(corpus: Corpus, rank: map<Page, real>, next: map<Page, real>)
    returns (change: real)
    requires rank.Keys == corpus.Keys && next.Keys == corpus.Keys
    ensures forall p :: p in corpus ==> Abs(next[p] - rank[p]) <= change
    ensures change == 0.0 || exists p :: p in corpus && change == Abs(next[p] - rank[p])
    ensures 0.0 <= change
  {
    change := 0.0;
    var todo := corpus.Keys;
    while todo != {}
      invariant todo <= corpus.Keys && 0.0 <= change
      invariant forall p :: p in corpus && p !in todo ==> Abs(next[p] - rank[p]) <= change
      invariant change == 0.0 || exists p :: p in corpus && change == Abs(next[p] - rank[p])
      decreases todo
    {
      var page :| page in todo;
      var rankChange := Abs(next[page] - rank[page]);
      if rankChange > change {
        change := rankChange;
      }
      todo := todo - {page};
    }
  }

  /**
    `iterate_pagerank` with at most `fuel` updates. When it answers, the answer
    is the vector before the last update, and that vector has converged while
    none of the earlier ones had. When the fuel runs out it answers `None`.
   */
  method IteratePageRank(corpus: Corpus, d: real, fuel: nat)
    returns (result: Option<map<Page, real>>, ghost rounds: nat)
    ensures result.Some? ==> rounds < fuel && result.value == Iterates(corpus, d, rounds)
    ensures result.Some? ==> Converged(corpus, d, result.value)
    ensures result.None? ==> rounds == fuel
    ensures forall j :: 0 <= j < rounds ==> !Converged(corpus, d, Iterates(corpus, d, j))
    ensures result.Some? && corpus != map[] && LinksInCorpus(corpus) && 0.0 <= d <= 1.0 ==>
      Sum(result.value) == 1.0 && forall p :: p in result.value ==> 0.0 <= result.value[p] <= 1.0
  {
    var rank := Uniform(corpus);
    var i := 0;
    while i < fuel
      invariant i <= fuel && rank == Iterates(corpus, d, i)
      invariant forall j :: 0 <= j < i ==> !Converged(corpus, d, Iterates(corpus, d, j))
    {
      var next := UpdateStep(corpus, d, rank);
      var change := MaxRankChange(corpus, rank, next);
      if change < Tolerance {
        Settled(corpus, d, rank, next, change);
        if corpus != map[] && LinksInCorpus(corpus) && 0.0 <= d <= 1.0 {
          IteratesAreDistributions(corpus, d, i);
        }
        return Some(rank), i;
      }
      ghost var p :| p in corpus && change == Abs(next[p] - rank[p]);
      StillMoving(corpus, d, rank, next, p);
      NoneConvergedYet(corpus, d, i);
      IteratesNext(corpus, d, i);
      rank := next;
      i := i + 1;
    }
    return None, fuel;
  }

  /** Every rank moving by at most `change`, less than `Tolerance`, means the vector has converged. */
  lemma Settled(corpus: Corpus, d: real, rank: map<Page, real>, next: map<Page, real>, change: real)
    requires rank.Keys == corpus.Keys && next == Step(corpus, d, rank)
    requires forall p :: p in corpus ==> Abs(next[p] - rank[p]) <= change
    requires change < Tolerance
    ensures Converged(corpus, d, rank)
  {
  }

  /** The next iterate is one update of the current one. */
  lemma IteratesNext(corpus: Corpus, d: real, i: nat)
    ensures Iterates(corpus, d, i + 1) == Step(corpus, d, Iterates(corpus, d, i))
  {
  }

  /** A page whose rank moves by `Tolerance` or more shows the vector has not converged. */
  lemma StillMoving(corpus: Corpus, d: real, rank: map<Page, real>, next: map<Page, real>, p: Page)
    requires rank.Keys == corpus.Keys && next == Step(corpus, d, rank)
    requires p in corpus && Abs(next[p] - rank[p]) >= Tolerance
    ensures !Converged(corpus, d, rank)
  {
  }

  /** The loop invariant of `IteratePageRank` carried over one more round. */
  lemma NoneConvergedYet(corpus: Corpus, d: real, i: nat)
    requires forall j :: 0 <= j < i ==> !Converged(corpus, d, Iterates(corpus, d, j))
    requires !Converged(corpus, d, Iterates(corpus, d, i))
    ensures forall j :: 0 <= j < i + 1 ==> !Converged(corpus, d, Iterates(corpus, d, j))
  {
  }

  /** The entry of `Inflow` for one sender. */
  lemma InflowAt(corpus: Corpus, d: real, rank: map<Page, real>, p: Page, q: Page)
    requires rank.Keys == corpus.Keys && q in corpus
    ensures Inflow(corpus, d, rank, p)[q] == Share(corpus, d, rank, q, p)
  {
  }

  /**
    With every link inside the corpus, a page passes out exactly `d` times its
    rank: split over its links, or spread over all pages when it has none.
   */
  lemma OutflowSum(corpus: Corpus, d: real, rank: map<Page, real>, q: Page)
    requires rank.Keys == corpus.Keys && q in corpus && LinksInCorpus(corpus)
    ensures Sum(Outflow(corpus, d, rank, q)) == d * rank[q]
  {
    var links := corpus[q];
    var out := Outflow(corpus, d, rank, q);
    if links == {} {
      var n := |corpus| as real;
      assert 0.0 < n by { assert q in corpus.Keys; }
      var each := d * (rank[q] / n);
      forall p | p in corpus ensures out[p] == each {
        assert |links| == 0;
      }
      assert out == Constant(corpus.Keys, each);
      SumConst(corpus.Keys, each);
      Undivide(n, d, rank[q]);
    } else {
      var l := |links| as real;
      var each := d * (rank[q] / l);
      forall p | p in corpus ensures out[p] == if p in links then each else 0.0 {
        assert |links| > 0;
      }
      assert out == Indicator(corpus.Keys, links, each);
      SumIndicator(corpus.Keys, links, each);
      Undivide(l, d, rank[q]);
    }
  }

  /** What page `q` passes to the pages listed in `receivers`. */
  ghost function SentTo(corpus: Corpus, d: real, rank: map<Page, real>, q: Page, receivers: seq<Page>): real
    requires rank.Keys == corpus.Keys && q in corpus
  {
    if receivers == [] then 0.0
    else Share(corpus, d, rank, q, receivers[0]) + SentTo(corpus, d, rank, q, receivers[1..])
  }

  /** What the listed receivers get from the listed senders, added receiver by receiver. */
  ghost function ReceivedBy(corpus: Corpus, d: real, rank: map<Page, real>, receivers: seq<Page>, senders: seq<Page>): real
    requires rank.Keys == corpus.Keys
    requires forall i :: 0 <= i < |senders| ==> senders[i] in corpus
  {
    if receivers == [] then 0.0
    else Received(corpus, d, rank, receivers[0], senders) + ReceivedBy(corpus, d, rank, receivers[1..], senders)
  }

  /** The same flow added sender by sender. */
  ghost function SentBy(corpus: Corpus, d: real, rank: map<Page, real>, senders: seq<Page>, receivers: seq<Page>): real
    requires rank.Keys == corpus.Keys
    requires forall i :: 0 <= i < |senders| ==> senders[i] in corpus
  {
    if senders == [] then 0.0
    else
      SentBy(corpus, d, rank, senders[..|senders| - 1], receivers)
        + SentTo(corpus, d, rank, senders[|senders| - 1], receivers)
  }

  /** Nothing is received from no senders. */
  lemma {:induction false} ReceivedByNobody(corpus: Corpus, d: real, rank: map<Page, real>, receivers: seq<Page>)
    requires rank.Keys == corpus.Keys
    ensures ReceivedBy(corpus, d, rank, receivers, []) == 0.0
  {
    if receivers != [] {
      ReceivedByNobody(corpus, d, rank, receivers[1..]);
    }
  }

  /** One more sender adds what it passes to the receivers. */
  lemma {:induction false} ReceivedByAppend(corpus: Corpus, d: real, rank: map<Page, real>, receivers: seq<Page>, senders: seq<Page>, q: Page)
    requires rank.Keys == corpus.Keys && q in corpus
    requires forall i :: 0 <= i < |senders| ==> senders[i] in corpus
    ensures ReceivedBy(corpus, d, rank, receivers, senders + [q])
         == ReceivedBy(corpus, d, rank, receivers, senders) + SentTo(corpus, d, rank, q, receivers)
  {
    if receivers != [] {
      ReceivedAppend(corpus, d, rank, receivers[0], senders, q);
      ReceivedByAppend(corpus, d, rank, receivers[1..], senders, q);
    }
  }

  /** Adding up the flow by receiver or by sender gives the same total. */
  lemma {:induction false} Exchange(corpus: Corpus, d: real, rank: map<Page, real>, receivers: seq<Page>, senders: seq<Page>)
    requires rank.Keys == corpus.Keys
    requires forall i :: 0 <= i < |senders| ==> senders[i] in corpus
    ensures ReceivedBy(corpus, d, rank, receivers, senders) == SentBy(corpus, d, rank, senders, receivers)
  {
    if senders == [] {
      ReceivedByNobody(corpus, d, rank, receivers);
    } else {
      var front, last := senders[..|senders| - 1], senders[|senders| - 1];
      assert senders == front + [last];
      Exchange(corpus, d, rank, receivers, front);
      ReceivedByAppend(corpus, d, rank, receivers, front, last);
    }
  }

  /** What `q` passes to the listed receivers is the sum of its `Outflow` at them. */
  lemma {:induction false} SentToInOrder(corpus: Corpus, d: real, rank: map<Page, real>, q: Page, receivers: seq<Page>)
    requires rank.Keys == corpus.Keys && q in corpus
    requires forall i :: 0 <= i < |receivers| ==> receivers[i] in corpus
    ensures SentTo(corpus, d, rank, q, receivers) == SumAt(receivers, Outflow(corpus, d, rank, q))
  {
    if receivers != [] {
      SentToInOrder(corpus, d, rank, q, receivers[1..]);
    }
  }

  /** A page passes `d` times its rank to the corpus as a whole, listed in any order. */
  lemma SentToAll(corpus: Corpus, d: real, rank: map<Page, real>, q: Page, receivers: seq<Page>)
    requires rank.Keys == corpus.Keys && q in corpus && LinksInCorpus(corpus)
    requires Distinct(receivers) && forall p :: p in receivers <==> p in corpus
    ensures SentTo(corpus, d, rank, q, receivers) == d * rank[q]
  {
    SentToInOrder(corpus, d, rank, q, receivers);
    SumAtAllKeys(receivers, Outflow(corpus, d, rank, q));
    OutflowSum(corpus, d, rank, q);
  }

  /**
    When each page passes `d` times its rank to the receivers, the listed
    senders together pass the sum of `d` times their ranks.
   */
  lemma {:induction false} SentByAll(corpus: Corpus, d: real, rank: map<Page, real>, senders: seq<Page>, receivers: seq<Page>)
    requires rank.Keys == corpus.Keys
    requires forall i :: 0 <= i < |senders| ==> senders[i] in corpus
    requires forall q :: q in corpus ==> SentTo(corpus, d, rank, q, receivers) == Scale(rank, d)[q]
    ensures SentBy(corpus, d, rank, senders, receivers) == SumAt(senders, Scale(rank, d))
  {
    if senders != [] {
      var front, last := senders[..|senders| - 1], senders[|senders| - 1];
      assert senders == front + [last];
      SentByAll(corpus, d, rank, front, receivers);
      SumAtAppend(front, Scale(rank, d), last);
    }
  }

  /** What each page of the corpus receives from the listed senders. */
  ghost function Incoming(corpus: Corpus, d: real, rank: map<Page, real>, senders: seq<Page>): map<Page, real>
    requires rank.Keys == corpus.Keys
    requires forall i :: 0 <= i < |senders| ==> senders[i] in corpus
  {
    map p | p in corpus :: Received(corpus, d, rank, p, senders)
  }

  /** `ReceivedBy` adds up the entries of `Incoming` at the listed receivers. */
  lemma {:induction false} ReceivedByInOrder(corpus: Corpus, d: real, rank: map<Page, real>, receivers: seq<Page>, senders: seq<Page>)
    requires rank.Keys == corpus.Keys
    requires forall i :: 0 <= i < |senders| ==> senders[i] in corpus
    requires forall i :: 0 <= i < |receivers| ==> receivers[i] in corpus
    ensures ReceivedBy(corpus, d, rank, receivers, senders) == SumAt(receivers, Incoming(corpus, d, rank, senders))
  {
    if receivers != [] {
      ReceivedByInOrder(corpus, d, rank, receivers[1..], senders);
    }
  }

  /**
    One update keeps `(1-d)` of the mass as the uniform jump and passes on `d`
    times the rest: the new total is `(1-d) + d * Sum(rank)`.
   */
  lemma StepMass(corpus: Corpus, d: real, rank: map<Page, real>)
    requires rank.Keys == corpus.Keys && corpus != map[] && LinksInCorpus(corpus)
    ensures Sum(Step(corpus, d, rank)) == (1.0 - d) + d * Sum(rank)
  {
    StepSplit(corpus, d, rank);
    PassedTotal(corpus, d, rank);
  }

  /** What the pages receive in one update, summed over all pages. */
  ghost function Passed(corpus: Corpus, d: real, rank: map<Page, real>): real
    requires rank.Keys == corpus.Keys
  {
    SumAt(Enumerate(corpus.Keys), Incoming(corpus, d, rank, Enumerate(corpus.Keys)))
  }

  /** The uniform jumps of one update add up to `1 - d`; the rest is what the pages receive. */
  lemma StepSplit(corpus: Corpus, d: real, rank: map<Page, real>)
    requires rank.Keys == corpus.Keys && corpus != map[]
    ensures Sum(Step(corpus, d, rank)) == (1.0 - d) + Passed(corpus, d, rank)
  {
    var pages := Enumerate(corpus.Keys);
    StepShift(corpus, d, rank, pages, Step(corpus, d, rank), Incoming(corpus, d, rank, pages));
  }

  /** Every page passes on `d` times its rank, so together they pass on `d` times the total. */
  lemma PassedTotal(corpus: Corpus, d: real, rank: map<Page, real>)
    requires rank.Keys == corpus.Keys && LinksInCorpus(corpus)
    ensures Passed(corpus, d, rank) == d * Sum(rank)
  {
    var pages := Enumerate(corpus.Keys);
    IncomingTotal(corpus, d, rank, pages, Incoming(corpus, d, rank, pages));
  }

  /**
    Summed along a listing of the corpus, the update adds the uniform jump
    `(1-d)/N` once per page, `1 - d` in all, to what the pages receive.
   */
  lemma StepShift(corpus: Corpus, d: real, rank: map<Page, real>,
                  pages: seq<Page>, next: map<Page, real>, incoming: map<Page, real>)
    requires rank.Keys == corpus.Keys && corpus != map[]
    requires pages == Enumerate(corpus.Keys) && next == Step(corpus, d, rank)
    requires incoming == Incoming(corpus, d, rank, pages)
    ensures Sum(next) == (1.0 - d) + SumAt(pages, incoming)
  {
    var jump := (1.0 - d) / |corpus| as real;
    forall i | 0 <= i < |pages|
      ensures pages[i] in next && pages[i] in incoming && next[pages[i]] == jump + incoming[pages[i]]
    {
      StepEntry(corpus, d, rank, pages[i]);
    }
    SumAtAllKeys(pages, next);
    SumAtShift(pages, next, incoming, jump);
    JumpTotal(|pages|, |corpus|, 1.0 - d, jump);
  }

  /**
    What the pages receive, summed over a listing of the whole corpus, is `d`
    times the total rank: every page passes on `d` times its own rank.
   */
  lemma IncomingTotal(corpus: Corpus, d: real, rank: map<Page, real>, pages: seq<Page>, incoming: map<Page, real>)
    requires rank.Keys == corpus.Keys && LinksInCorpus(corpus)
    requires Distinct(pages) && forall p :: p in pages <==> p in corpus
    requires incoming == Incoming(corpus, d, rank, pages)
    ensures SumAt(pages, incoming) == d * Sum(rank)
  {
    IncomingIsSent(corpus, d, rank, pages, incoming, Scale(rank, d));
    ScaledTotal(pages, rank, d);
  }

  /** Summed over a listing of all its keys, `rank` scaled by `d` totals `d * Sum(rank)`. */
  lemma ScaledTotal(pages: seq<Page>, rank: map<Page, real>, d: real)
    requires Distinct(pages) && forall p :: p in pages <==> p in rank
    ensures SumAt(pages, Scale(rank, d)) == d * Sum(rank)
  {
    SumAtScale(pages, rank, d);
    SumAtAllKeys(pages, rank);
    Rescale(SumAt(pages, Scale(rank, d)), SumAt(pages, Scale(rank, d)), SumAt(pages, rank), Sum(rank), d);
  }

  /** Added up by receiver, the flow over a listing of the corpus is what the senders pass on. */
  lemma IncomingIsSent(corpus: Corpus, d: real, rank: map<Page, real>, pages: seq<Page>,
                       incoming: map<Page, real>, scaled: map<Page, real>)
    requires rank.Keys == corpus.Keys && LinksInCorpus(corpus)
    requires Distinct(pages) && forall p :: p in pages <==> p in corpus
    requires incoming == Incoming(corpus, d, rank, pages) && scaled == Scale(rank, d)
    ensures SumAt(pages, incoming) == SumAt(pages, scaled)
  {
    ReceivedByInOrder(corpus, d, rank, pages, pages);
    Exchange(corpus, d, rank, pages, pages);
    forall q | q in corpus ensures SentTo(corpus, d, rank, q, pages) == scaled[q] {
      SentToAll(corpus, d, rank, q, pages);
    }
    SentByAll(corpus, d, rank, pages, pages);
  }

  /** `k` equal shares of `x / k` make up `x`. */
  lemma JumpTotal(k: nat, m: nat, x: real, share: real)
    requires k == m && 0 < m && share == x / m as real
    ensures Times(k, share) == x
  {
    TimesIsProduct(k, share);
  }

  /** The entry of `Step` for one page, in terms of `Incoming`. */
  lemma StepEntry(corpus: Corpus, d: real, rank: map<Page, real>, p: Page)
    requires rank.Keys == corpus.Keys && p in corpus
    ensures p in Incoming(corpus, d, rank, Enumerate(corpus.Keys))
    ensures Step(corpus, d, rank)[p]
         == (1.0 - d) / |corpus| as real + Incoming(corpus, d, rank, Enumerate(corpus.Keys))[p]
  {
  }

  /** With a damping factor of at least 0 and no negative rank, no page gets less than `(1-d)/N`. */
  lemma StepFloor(corpus: Corpus, d: real, rank: map<Page, real>, p: Page)
    requires rank.Keys == corpus.Keys && p in corpus
    requires 0.0 <= d && forall q :: q in rank ==> 0.0 <= rank[q]
    ensures (1.0 - d) / |corpus| as real <= Step(corpus, d, rank)[p]
  {
    var shares := Inflow(corpus, d, rank, p);
    forall q | q in shares ensures 0.0 <= shares[q] {
      InflowAt(corpus, d, rank, p, q);
      ShareNonNegative(corpus, d, rank, q, p);
    }
    SumNonNegative(shares);
    StepIsSum(corpus, d, rank, p);
  }

  /** No share is negative when neither the damping factor nor the sender's rank is. */
  lemma ShareNonNegative(corpus: Corpus, d: real, rank: map<Page, real>, q: Page, p: Page)
    requires q in corpus && q in rank && 0.0 <= d && 0.0 <= rank[q]
    ensures 0.0 <= Share(corpus, d, rank, q, p)
  {
    assert 0 < |corpus| by { assert q in corpus.Keys; }
  }

  /** With links inside the corpus, every iterate sums to 1, whatever the damping factor. */
  lemma {:induction false} IteratesSumToOne(corpus: Corpus, d: real, k: nat)
    requires corpus != map[] && LinksInCorpus(corpus)
    ensures Sum(Iterates(corpus, d, k)) == 1.0
  {
    if k > 0 {
      IteratesSumToOne(corpus, d, k - 1);
      var prev := Iterates(corpus, d, k - 1);
      StepKeepsMass(corpus, d, prev, Step(corpus, d, prev));
    }
  }

  /** For `0 <= d <= 1` no iterate has a negative rank. */
  lemma {:induction false} IteratesNonNegative(corpus: Corpus, d: real, k: nat)
    requires 0.0 <= d <= 1.0
    ensures forall p :: p in corpus ==> 0.0 <= Iterates(corpus, d, k)[p]
  {
    if k > 0 {
      IteratesNonNegative(corpus, d, k - 1);
      var prev := Iterates(corpus, d, k - 1);
      StepKeepsNonNegative(corpus, d, prev, Step(corpus, d, prev));
    }
  }

  /**
    For `0 <= d <= 1` and links inside a non-empty corpus every iterate is a
    probability vector: each rank lies between 0 and 1 and the ranks sum to 1.
   */
  lemma IteratesAreDistributions(corpus: Corpus, d: real, k: nat)
    requires corpus != map[] && LinksInCorpus(corpus) && 0.0 <= d <= 1.0
    ensures Sum(Iterates(corpus, d, k)) == 1.0
    ensures forall p :: p in corpus ==> 0.0 <= Iterates(corpus, d, k)[p] <= 1.0
  {
    var r := Iterates(corpus, d, k);
    IteratesSumToOne(corpus, d, k);
    IteratesNonNegative(corpus, d, k);
    forall p | p in corpus ensures r[p] <= 1.0 {
      EntryAtMostSum(r, p);
    }
  }

  /** An update of ranks summing to 1 sums to 1 again. */
  lemma StepKeepsMass(corpus: Corpus, d: real, rank: map<Page, real>, next: map<Page, real>)
    requires rank.Keys == corpus.Keys && corpus != map[] && LinksInCorpus(corpus)
    requires Sum(rank) == 1.0 && next == Step(corpus, d, rank)
    ensures Sum(next) == 1.0
  {
    StepMass(corpus, d, rank);
    MassKept(d, Sum(rank), Sum(next));
  }

  /** For `0 <= d <= 1` an update of non-negative ranks has no negative rank. */
  lemma StepKeepsNonNegative(corpus: Corpus, d: real, rank: map<Page, real>, next: map<Page, real>)
    requires rank.Keys == corpus.Keys && 0.0 <= d <= 1.0
    requires (forall p :: p in corpus ==> 0.0 <= rank[p]) && next == Step(corpus, d, rank)
    ensures forall p :: p in corpus ==> 0.0 <= next[p]
  {
    forall p | p in corpus ensures 0.0 <= next[p] {
      StepFloor(corpus, d, rank, p);
      JumpNonNegative(d, |corpus|);
    }
  }

  /** The arithmetic step of `IteratesSumToOne`. */
  lemma MassKept(d: real, s: real, t: real)
    requires s == 1.0 && t == (1.0 - d) + d * s
    ensures t == 1.0
  {
  }

  /** The uniform jump `(1-d)/N` is not negative for `d <= 1`. */
  lemma JumpNonNegative(d: real, n: nat)
    requires d <= 1.0 && 0 < n
    ensures 0.0 <= (1.0 - d) / n as real
  {
  }

  /** A vector that one update leaves unchanged has converged. */
  lemma FixedPointConverged(corpus: Corpus, d: real, rank: map<Page, real>)
    requires rank.Keys == corpus.Keys && Step(corpus, d, rank) == rank
    ensures Converged(corpus, d, rank)
  {
  }

  /** `n * (d * (r / n)) == d * r` for a positive `n`. */
  lemma Undivide(n: real, d: real, r: real)
    requires 0.0 < n
    ensures n * (d * (r / n)) == d * r
  {
  }

  /** `n * (x / n) == x` for a positive `n`. */
  lemma Cancel(n: real, x: real)
    requires 0.0 < n
    ensures n * (x / n) == x
  {
  }
}
