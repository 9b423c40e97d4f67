/**
  The link graph ("corpus") and the link filtering that `crawl` performs on it.

  Reading a directory, opening files and scraping `href` attributes are not
  modelled: a directory listing arrives as a sequence of entries, each the
  file name together with the link targets found in that file.
 */
module Pages {

  /** A page is named by its file name. */
  type Page = string

  /** Each page of the corpus mapped to the set of pages it links to. */
  type Corpus = map<Page, set<Page>>

  /** One directory entry: a file name and the link targets scraped from it. */
  type Entry = (Page, seq<Page>)

  /** Only files whose names end in ".html" become pages. */
  predicate IsHtml(name: Page) {
    |name| >= 5 && name[|name| - 5..] == ".html"
  }

  /** Every link target is itself a page of the corpus. */
  ghost predicate LinksInCorpus(corpus: Corpus) {
    forall p :: p in corpus ==> corpus[p] <= corpus.Keys
  }

  /** No page links to itself. */
  ghost predicate NoSelfLinks(corpus: Corpus) {
    forall p :: p in corpus ==> p !in corpus[p]
  }

  /** The graph invariant the estimators rely on. */
  ghost predicate WellFormed(corpus: Corpus) {
    LinksInCorpus(corpus) && NoSelfLinks(corpus)
  }

  /** The names of the ".html" entries among the first `n` entries of `listing`. */
  ghost function HtmlNames(listing: seq<Entry>, n: nat): set<Page>
    requires n <= |listing|
  {
    set i | 0 <= i < n && IsHtml(listing[i].0) :: listing[i].0
  }

  /** No entry after entry `i` and before entry `n` has the same name as entry `i`. */
  ghost predicate LastOfName(listing: seq<Entry>, i: nat, n: nat)
    requires i < n <= |listing|
  {
    forall j :: i < j < n ==> listing[j].0 != listing[i].0
  }

  /**
    The first loop of `crawl`: every ".html" entry becomes a page whose links
    are the distinct scraped targets minus the page itself. A later entry with
    the same name replaces an earlier one, as a dictionary assignment does.
   */
  method CollectPages(listing: seq<Entry>) returns (pages: Corpus)
    ensures pages.Keys == HtmlNames(listing, |listing|)
    ensures forall i :: 0 <= i < |listing| && IsHtml(listing[i].0) && LastOfName(listing, i, |listing|) ==>
      pages[listing[i].0] == (set l | l in listing[i].1) - {listing[i].0}
    ensures NoSelfLinks(pages)
  {
    pages := map[];
    for n := 0 to |listing|
      invariant pages.Keys == HtmlNames(listing, n)
      invariant forall i :: 0 <= i < n && IsHtml(listing[i].0) && LastOfName(listing, i, n) ==>
        pages[listing[i].0] == (set l | l in listing[i].1) - {listing[i].0}
      invariant NoSelfLinks(pages)
    {
      var (name, links) := listing[n];
      if IsHtml(name) {
        pages := pages[name := (set l | l in links) - {name}];
      }
      assert HtmlNames(listing, n + 1) == HtmlNames(listing, n) + (if IsHtml(name) then {name} else {});
      forall i | 0 <= i < n + 1 && IsHtml(listing[i].0) && LastOfName(listing, i, n + 1)
        ensures pages[listing[i].0] == (set l | l in listing[i].1) - {listing[i].0}
      {
        if i < n {
          assert LastOfName(listing, i, n);
          assert listing[n].0 != listing[i].0;
        }
      }
    }
  }

  /**
    The second loop of `crawl`: each page keeps only the links to pages of the
    corpus. The set of pages does not change while the loop runs.
   */
  method RestrictToCorpus(pages: Corpus) returns (restricted: Corpus)
    ensures restricted.Keys == pages.Keys
    ensures forall p :: p in restricted ==> restricted[p] == pages[p] * pages.Keys
    ensures LinksInCorpus(restricted)
    ensures NoSelfLinks(pages) ==> WellFormed(restricted)
  {
    restricted := pages;
    var todo := pages.Keys;
    while todo != {}
      invariant todo <= pages.Keys
      invariant restricted.Keys == pages.Keys
      invariant forall p :: p in restricted && p !in todo ==> restricted[p] == pages[p] * pages.Keys
      invariant forall p :: p in todo ==> restricted[p] == pages[p]
      decreases todo
    {
      var page :| page in todo;
      restricted := restricted[page := set link | link in restricted[page] && link in restricted];
      todo := todo - {page};
    }
  }

  /**
    `crawl` without its file handling: the pages are the ".html" entries, and
    each keeps exactly the scraped links that name another page of the corpus.
   */
  method Crawl(listing: seq<Entry>) returns (corpus: Corpus)
    ensures corpus.Keys == HtmlNames(listing, |listing|)
    ensures forall i :: 0 <= i < |listing| && IsHtml(listing[i].0) && LastOfName(listing, i, |listing|) ==>
      corpus[listing[i].0] == set l | l in listing[i].1 && l != listing[i].0 && l in corpus
    ensures WellFormed(corpus)
  {
    var pages := CollectPages(listing);
    corpus := RestrictToCorpus(pages);
  }
}
