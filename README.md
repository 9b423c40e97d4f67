# PageRank engine, modelled in Dafny

This project models the PageRank engine of `pagerank/pagerank.py`. The engine
reads a corpus of HTML pages into a link graph and estimates each page's
PageRank in two ways:

- a random surfer samples `n` steps, and each page's rank is its share of the
  visits;
- an update equation is applied repeatedly, starting from the uniform vector,
  until no rank moves by `0.001` or more.

Ranks are exact rationals (`real`), not floats. A page is its file name
(`string`), and the corpus is a `map<Page, set<Page>>` from each page to the
pages it links to.

The model has six modules, one file each:

- `Pages` (`pages.dfy`): the link graph and the link filtering of `crawl`.
- `Transition` (`transition.dfy`): `transition_model`. It is a method that
  fills the distribution in place, proved equal to the ghost function
  `Transition`.
- `Sampling` (`sampling.dfy`): `sample_pagerank`, with the random draws passed
  in as an oracle.
- `Iteration` (`iteration.dfy`): `iterate_pagerank`.
  - `Step` is one update, as a ghost function.
  - `Iterates(k)` is the vector after `k` updates.
  - `NewRank`, `UpdateStep`, `MaxRankChange` and `IteratePageRank` are the
    loops of the source, each proved against those functions.
  - Mass preservation is proved by exchanging the order of a double sum: what
    all pages receive equals what all pages pass on.
- `Sums` (`sums.dfy`): finite sums of real-valued maps (`Sum`). These are sums
  along a list of keys (`SumAt`) and a duplicate-free listing of a set
  (`Enumerate`), with the lemmas they need.
- `Scenarios` (`scenarios.dfy`): small corpora whose ranks can be worked out
  by hand.

## Model

| member | source | states |
|---|---|---|
| Pages.CollectPages | pagerank/pagerank.py:33-42 | The pages are exactly the `.html` entries. Each page's links are its distinct scraped targets with the page itself removed. A later entry with the same name replaces an earlier one. No page links to itself. |
| Pages.RestrictToCorpus | pagerank/pagerank.py:44-49 | The page set is unchanged. Each page keeps exactly its links that are pages of the corpus, so every link target is a key. Without self-links before, the result is well formed. |
| Pages.Crawl | pagerank/pagerank.py:27-51 | The corpus is the `.html` entries. Each page links exactly to the scraped targets that are other pages of the corpus. Every link target is a key and no page links to itself. |
| Transition.TransitionModel | pagerank/pagerank.py:54-82 | The keys are exactly the corpus pages. A page without links gives every page `1/N`. Otherwise a linked page gets `d/|links| + (1-d)/N` and any other page gets `(1-d)/N`. |
| Transition.TransitionNonNegative | pagerank/pagerank.py:59-80 | For `0 <= d <= 1` no probability is negative. For `d < 1` every page is reachable in one step. |
| Transition.TransitionSumsToOne | pagerank/pagerank.py:63-80 | When the page's links are corpus pages, the probabilities sum to exactly 1 for every damping factor. |
| Sampling.Walk | pagerank/pagerank.py:96-101 | The surfer visits the start page first, then the page drawn after each visit. |
| Sampling.CountVisits | pagerank/pagerank.py:95-101 | One counter per corpus page. Each counter is the number of times the `n`-step walk visits that page. |
| Sampling.SamplePageRank | pagerank/pagerank.py:86-105 | One value per corpus page, equal to its visit count divided by `n`. Each value lies in [0, 1], and the values sum to exactly 1. |
| Sampling.FrequencyBound | pagerank/pagerank.py:104 | A page's visit count divided by the walk length `n` lies in [0, 1]. |
| Sampling.MultiplicityBound | pagerank/pagerank.py:98-99 | No page is visited more often than the walk is long. |
| Sampling.FrequenciesSum | pagerank/pagerank.py:98-104 | When every visited page is a corpus page, the frequencies add up to the walk length divided by `n`. Each step adds `1/n` to exactly one page. |
| Sampling.FrequenciesAppend | pagerank/pagerank.py:99 | One more visit to `x` raises the frequency of `x` by `1/n` and leaves every other page's unchanged. |
| Sampling.VisitFrequenciesSumToOne | pagerank/pagerank.py:98-104 | The frequencies of an `n`-step walk over corpus pages sum to exactly 1. |
| Iteration.Abs | pagerank/pagerank.py:134 | The result is non-negative and equals `x` or `-x`. |
| Iteration.Uniform | pagerank/pagerank.py:117-118 | Every page starts at `1/N`, which is positive. For a non-empty corpus the start sums to 1. |
| Iteration.NewRank | pagerank/pagerank.py:125-131 | The inner loop, visiting the senders in any order, computes exactly the page's entry of the update `Step`. |
| Iteration.UpdateStep | pagerank/pagerank.py:124-131 | One pass of the outer loop yields exactly the update `Step` of the current ranks. |
| Iteration.MaxRankChange | pagerank/pagerank.py:122-136 | The result bounds every page's change. It is 0 or the change of some page, so it is the largest change. |
| Iteration.IteratePageRank | pagerank/pagerank.py:117-142 | The loop starts from the uniform vector. An answer is the vector before the last update, `Iterates(rounds)`; every rank of it moves by less than `0.001` in one more update, and no earlier vector had converged. With links inside a non-empty corpus and `0 <= d <= 1`, the answer's ranks lie in [0, 1] and sum to 1. |
| Iteration.StepIsSum | pagerank/pagerank.py:124-131 | A page's new rank is `(1-d)/N` plus the sum of the shares passed to it by all pages. |
| Iteration.ReceivedAnyOrder | pagerank/pagerank.py:127-131 | Adding the shares in any duplicate-free order of the corpus gives the same rank, so dictionary order does not matter. |
| Iteration.ReceivedInOrder | pagerank/pagerank.py:127-131 | The shares added along a list of senders are the sum of `Inflow` along that list. |
| Iteration.OutflowSum | pagerank/pagerank.py:127-131 | A page passes on exactly `d` times its rank. A page with links splits it among them; a page without links spreads it over every page, itself included. |
| Iteration.Exchange | pagerank/pagerank.py:124-131 | The flow of rank, added up receiver by receiver, equals the same flow added up sender by sender. |
| Iteration.SentToAll | pagerank/pagerank.py:127-131 | Over any duplicate-free listing of the corpus, a page passes on `d` times its rank. |
| Iteration.SentByAll | pagerank/pagerank.py:127-131 | When each page passes on `d` times its rank, the listed senders together pass on the sum of `d` times their ranks. |
| Iteration.StepMass | pagerank/pagerank.py:124-131 | The total after one update is `(1-d) + d` times the total before. |
| Iteration.StepKeepsMass | pagerank/pagerank.py:113-115 | With links inside the corpus, ranks summing to 1 still sum to 1 after an update. |
| Iteration.StepFloor | pagerank/pagerank.py:125-131 | With `d >= 0` and no negative rank, every new rank is at least `(1-d)/N`. |
| Iteration.StepKeepsNonNegative | pagerank/pagerank.py:124-131 | With `0 <= d <= 1`, an update of non-negative ranks has no negative rank. |
| Iteration.IteratesSumToOne | pagerank/pagerank.py:113-140 | With links inside a non-empty corpus, every iterate sums to 1 whatever the damping factor. |
| Iteration.IteratesNonNegative | pagerank/pagerank.py:118-140 | For `0 <= d <= 1` no iterate has a negative rank. |
| Iteration.IteratesAreDistributions | pagerank/pagerank.py:113-115 | Under the same conditions, every iterate has each rank in [0, 1] and the ranks sum to 1. |
| Scenarios.TwoCycleFixedPoint | pagerank/pagerank.py:118-131 | Two pages linking to each other start at `1/2` each, and an update leaves them there for every `d`. |
| Scenarios.TwoCycleRanks | pagerank/pagerank.py:117-142 | On the two-page cycle the iteration answers `{A: 0.5, B: 0.5}`. |
| Scenarios.DanglingPairFixedPoint | pagerank/pagerank.py:124-131 | In `{A: {}, B: {A}}` at `d = 0.85`, `A = 37/57` and `B = 20/57` is left unchanged by an update, because the page without links spreads its rank over both pages. |
| Scenarios.DanglingPairUpdate | pagerank/pagerank.py:127-131 | Each page of that corpus gets back exactly its rank. |
| Scenarios.SingleFixedPoint | pagerank/pagerank.py:118-131 | A single page starts at 1, and an update leaves it at 1. |
| Scenarios.SingleRanks | pagerank/pagerank.py:117-142 | On a single page the iteration answers `{A: 1.0}` for every `d`. |
| Scenarios.SingleSample | pagerank/pagerank.py:86-105 | On a single page the sampler answers `{A: 1.0}` for every `n >= 1` and every draw. |

## Left out

- `main`, the command line and the printing with four decimals are not modelled.
- `os.listdir`, `open` and the `href` regular expression are replaced by a listing. Each entry of the listing is a file name with its scraped link targets.
- `random.choice` and `random.choices` are replaced by an oracle: the start page and one drawn page per step, each required to be a corpus page. The draws are not tied to the weights of the transition model. The model does not capture the sampler's probability or its convergence.
- Sampling.CountVisits: computes the transition model at every step, as the source does, but the page the oracle draws does not depend on it.
- Floating-point rounding is not modelled; all arithmetic is exact.
- The unbounded `while True` loop runs for at most `fuel` rounds; whether it terminates for every graph is not proved.
- Iteration.IteratePageRank: answers `None` when the fuel runs out. The source would keep iterating instead.
- The copy `new_page_rank.copy()` and the reuse of one `new_page_rank` dictionary are not modelled. Each update builds a fresh map, which is equivalent because every entry is overwritten before it is read.
- Dictionary iteration order is not modelled. The loops take pages in an arbitrary order. With exact arithmetic the order does not change the result (`Iteration.ReceivedAnyOrder`); with floats it could change the last bits.
- Crashes of the source are preconditions, not error results:
  - `random.choice` on an empty corpus: the start page must be a corpus page.
  - division by `n = 0` when normalising the counts: `n >= 1` is required.
  - a lookup of a page that is not in the corpus: the page must be a corpus page.
- The source does not check the damping factor. The model accepts any `d`; only the lemmas that need `0 <= d <= 1` require it.
- An empty corpus is not rejected. The iteration returns the empty vector after one round, as the source does (its comprehension over no pages divides by nothing).
- When the iteration stops, the source returns the vector before the last update, not the newer one. The model follows the code.
- `parser/parser.py` is not part of this model.
