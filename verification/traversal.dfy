/** The crawl of one domain in URL space, with no digests: the reference
    semantics of `process_domain`. A crawl starts from the domain's landing
    page and proceeds in rounds; each round hands every frontier URL to the
    worker and builds the next frontier from what the pages link to. */
module Traversal {
  import opened Urls
  import opened Worker

  type WorkerFn = Url -> Harvest

  /** The crawl state between rounds: the URLs to fetch next, the URLs
      already fetched (`processed`), the product URLs found so far
      (`product_urls`), and the frontier of every round run so far, in
      order. */
  datatype Explore = Explore(frontier: set<Url>, processed: set<Url>, productUrls: set<Url>, history: seq<set<Url>>)

  /** Before the first round only the domain itself is queued. */
  function Seed(domain: Url): Explore {
    Explore({domain}, {}, {}, [])
  }

  /** The product URLs a round's pages yield together. */
  function RoundProducts(w: WorkerFn, urls: set<Url>): set<Url> {
    set u, p | u in urls && p in w(u).products :: p
  }

  /** The links a round's pages yield together. */
  function RoundLinks(w: WorkerFn, urls: set<Url>): set<Url> {
    set u, l | u in urls && l in w(u).links :: l
  }

  /** A round of one page yields that page's harvest. */
  lemma RoundOfOne(w: WorkerFn, u: Url)
    ensures RoundProducts(w, {u}) == w(u).products
    ensures RoundLinks(w, {u}) == w(u).links
  {
  }

  /** One round: fetch the whole frontier, mark it fetched, add the round's
      products to `productUrls`, and queue the round's links that are
      neither products of this round nor fetched already. */
  function Step(w: WorkerFn, e: Explore): (r: Explore)
    ensures r.processed == e.processed + e.frontier
    ensures r.productUrls == e.productUrls + RoundProducts(w, e.frontier)
    ensures r.history == e.history + [e.frontier]
    ensures r.frontier <= RoundLinks(w, e.frontier)
    ensures r.frontier !! r.processed && r.frontier !! RoundProducts(w, e.frontier)
    ensures forall u :: u in RoundLinks(w, e.frontier) && u !in RoundProducts(w, e.frontier) && u !in r.processed ==> u in r.frontier
  {
    var fetched := e.processed + e.frontier;
    var products := RoundProducts(w, e.frontier);
    Explore(RoundLinks(w, e.frontier) - products - fetched, fetched, e.productUrls + products, e.history + [e.frontier])
  }

  /** Rounds run while the frontier is non-empty and fewer than `maxDepth`
      rounds have run. */
  function Run(w: WorkerFn, e: Explore, maxDepth: int): (r: Explore)
    ensures |e.history| <= |r.history| && r.history[..|e.history|] == e.history
    ensures r.frontier == {} || |r.history| >= maxDepth
    ensures |r.history| == |e.history| || |r.history| <= maxDepth
    ensures e.processed <= r.processed && e.productUrls <= r.productUrls
    decreases maxDepth - |e.history|
  {
    if e.frontier != {} && |e.history| < maxDepth then Run(w, Step(w, e), maxDepth) else e
  }

  /** The union of a sequence of sets. */
  function Union(hs: seq<set<Url>>): (u: set<Url>)
    ensures forall i :: 0 <= i < |hs| ==> hs[i] <= u
    ensures forall x :: x in u ==> exists i :: 0 <= i < |hs| && x in hs[i]
  {
    if hs == [] then {} else Union(hs[..|hs| - 1]) + hs[|hs| - 1]
  }

  /** The products yielded by the rounds of a history. */
  function AllProducts(w: WorkerFn, hs: seq<set<Url>>): set<Url> {
    if hs == [] then {} else AllProducts(w, hs[..|hs| - 1]) + RoundProducts(w, hs[|hs| - 1])
  }

  /** The links reported by the rounds of a history. */
  function AllLinks(w: WorkerFn, hs: seq<set<Url>>): set<Url> {
    if hs == [] then {} else AllLinks(w, hs[..|hs| - 1]) + RoundLinks(w, hs[|hs| - 1])
  }

  /** A further round adds exactly its own links. */
  lemma AllLinksSnoc(w: WorkerFn, hs: seq<set<Url>>, round: set<Url>)
    ensures AllLinks(w, hs + [round]) == AllLinks(w, hs) + RoundLinks(w, round)
  {
    assert (hs + [round])[..|hs|] == hs;
  }

  /** No URL belongs to two rounds. */
  predicate Disjoint(hs: seq<set<Url>>) {
    forall i, j :: 0 <= i < j < |hs| ==> hs[i] !! hs[j]
  }

  /** What the crawl state means: the fetched URLs are exactly those of the
      past rounds, no URL was fetched in two rounds, the next frontier holds
      none of them, and the found products are those the past rounds
      yielded. */
  predicate Valid(w: WorkerFn, e: Explore) {
    && e.processed == Union(e.history)
    && Disjoint(e.history)
    && e.frontier !! e.processed
    && e.productUrls == AllProducts(w, e.history)
  }

  /** The seed state is meaningful: nothing fetched, nothing found. */
  lemma SeedValid(w: WorkerFn, domain: Url)
    ensures Valid(w, Seed(domain))
  {
  }

  /** A round keeps the crawl state meaningful. */
  lemma StepValid(w: WorkerFn, e: Explore)
    requires Valid(w, e)
    ensures Valid(w, Step(w, e))
  {
    var r := Step(w, e);
    var n := |e.history|;
    assert r.history[..n] == e.history;
    assert r.processed == Union(r.history);
    assert r.productUrls == AllProducts(w, r.history);
    forall i, j | 0 <= i < j < |r.history|
      ensures r.history[i] !! r.history[j]
    {
      if j == n {
        assert r.history[i] == e.history[i] <= e.processed;
      }
    }
  }

  /** So does the whole loop. */
  lemma {:induction false} RunValid(w: WorkerFn, e: Explore, maxDepth: int)
    requires Valid(w, e)
    ensures Valid(w, Run(w, e, maxDepth))
    decreases maxDepth - |e.history|
  {
    if e.frontier != {} && |e.history| < maxDepth {
      StepValid(w, e);
      RunValid(w, Step(w, e), maxDepth);
    }
  }

  /** The number of rounds a depth bound allows. */
  function Rounds(maxDepth: int): nat {
    if maxDepth < 0 then 0 else maxDepth
  }

  /** What a crawl of one domain guarantees: at most `maxDepth` rounds and
      none at all when `maxDepth <= 0`; it stops early only on an empty
      frontier; the first round fetches the domain alone; no URL is fetched
      twice; and the products are exactly those the fetched pages yield. */
  lemma Crawl(w: WorkerFn, domain: Url, maxDepth: int)
    ensures var r := Run(w, Seed(domain), maxDepth);
      && (maxDepth <= 0 ==> r == Seed(domain))
      && |r.history| <= Rounds(maxDepth)
      && (r.frontier == {} || |r.history| == Rounds(maxDepth))
      && (r.history != [] ==> r.history[0] == {domain})
      && Disjoint(r.history)
      && r.processed == Union(r.history)
      && r.productUrls == AllProducts(w, r.history)
  {
    SeedValid(w, domain);
    RunValid(w, Seed(domain), maxDepth);
    CrawlFirstRound(w, domain, maxDepth);
  }

  /** A crawl that runs at all fetches the domain alone in its first round. */
  lemma CrawlFirstRound(w: WorkerFn, domain: Url, maxDepth: int)
    ensures var r := Run(w, Seed(domain), maxDepth);
      r.history != [] ==> r.history[0] == {domain}
  {
    var s := Seed(domain);
    if 0 < maxDepth {
      assert Run(w, s, maxDepth) == Run(w, Step(w, s), maxDepth);
      assert Run(w, s, maxDepth).history[..1] == [{domain}];
    }
  }

  /** With a depth bound of one, only the landing page is fetched, and the
      products are exactly that page's. */
  lemma SingleRound(w: WorkerFn, domain: Url)
    ensures Run(w, Seed(domain), 1).history == [{domain}]
    ensures Run(w, Seed(domain), 1).productUrls == w(domain).products
  {
    var r := Step(w, Seed(domain));
    assert Run(w, Seed(domain), 1) == Run(w, r, 1) == r;
    RoundOfOne(w, domain);
  }

  /** The next frontier excludes only the round's own products, not every
      product found so far: a URL found as a product in the first round and
      linked again, as a plain link, from a page of the second round is
      queued for the third. */
  lemma ProductCanReenterFrontier(w: WorkerFn, d: Url, p: Url, q: Url)
    requires d != p && d != q && p != q
    requires w(d) == Harvest({p}, {p, q})
    requires w(q) == Harvest({}, {p})
    ensures p in Step(w, Seed(d)).productUrls
    ensures p in Step(w, Step(w, Seed(d))).productUrls
    ensures p in Step(w, Step(w, Seed(d))).frontier
  {
    var r1 := Step(w, Seed(d));
    assert RoundProducts(w, {d}) == {p};
    assert RoundLinks(w, {d}) == {p, q};
    assert r1.frontier == {q};
    assert RoundProducts(w, {q}) == {};
    assert p in RoundLinks(w, {q});
  }
}
