/** `process_pages`: crawl every domain of a list with the default depth
    bound, the worker being `process_link` over the browser. */
module Pages {
  import opened Urls
  import opened Extract
  import opened Registry
  import opened Worker
  import opened Traversal
  import opened Domain

  /** `MAX_DEPTH`, the default depth bound of `process_domain`. */
  const MaxDepth: int := 1

  /** The worker the crawler runs: `process_link` over the fetch. */
  function Crawler(fetch: Fetcher): WorkerFn {
    u => ProcessLink(fetch, u)
  }

  /** With the default depth bound a crawl fetches the landing page alone,
      so its products are the product URLs of that one page. */
  lemma DefaultCrawl(fetch: Fetcher, domain: Url)
    ensures Run(Crawler(fetch), Seed(domain), MaxDepth).history == [{domain}]
    ensures Run(Crawler(fetch), Seed(domain), MaxDepth).productUrls == ProcessLink(fetch, domain).products
  {
    SingleRound(Crawler(fetch), domain);
  }

  /** `process_pages`: one result per domain, in the order of the list, each
      the crawl of that domain with the default depth bound. The table is
      threaded from one crawl to the next. */
  method ProcessPages(h: Hasher, fetch: Fetcher, t0: Table, domains: seq<Url>)
    returns (results: seq<CrawlResult>, t: Table)
    requires Injective(h) && Consistent(h, t0)
    ensures |results| == |domains|
    ensures forall i :: 0 <= i < |domains| ==> results[i].domain == domains[i]
    ensures forall i :: 0 <= i < |domains| ==>
      results[i].products == Run(Crawler(fetch), Seed(domains[i]), MaxDepth).productUrls
    ensures forall i :: 0 <= i < |domains| ==>
      results[i].products == ProcessLink(fetch, domains[i]).products
    ensures Consistent(h, t) && Extends(t0, t)
  {
    results, t := [], t0;
    var k := 0;
    while k < |domains|
      invariant 0 <= k <= |domains| && |results| == k
      invariant forall i :: 0 <= i < k ==> results[i].domain == domains[i]
      invariant forall i :: 0 <= i < k ==>
        results[i].products == Run(Crawler(fetch), Seed(domains[i]), MaxDepth).productUrls
      invariant forall i :: 0 <= i < k ==> results[i].products == ProcessLink(fetch, domains[i]).products
      invariant Consistent(h, t) && Extends(t0, t)
    {
      var res, _, t' := ProcessDomain(h, Crawler(fetch), t, domains[k], MaxDepth);
      DefaultCrawl(fetch, domains[k]);
      results := results + [res];
      t := t';
      k := k + 1;
    }
  }

  /** A landing page that cannot be downloaded ends the crawl after one
      round with no products, whatever the depth bound. */
  lemma FailedLanding(fetch: Fetcher, domain: Url, maxDepth: int)
    requires fetch(domain).None?
    ensures Run(Crawler(fetch), Seed(domain), maxDepth).productUrls == {}
    ensures |Run(Crawler(fetch), Seed(domain), maxDepth).history| <= 1
  {
    var w := Crawler(fetch);
    var s := Seed(domain);
    if 0 < maxDepth {
      assert RoundLinks(w, {domain}) == {};
      assert RoundProducts(w, {domain}) == {};
      assert Run(w, s, maxDepth) == Run(w, Step(w, s), maxDepth) == Step(w, s);
    }
  }

  /** End to end: crawling `http://x/`, whose page has the anchors
      `/product/1`, `/a` and `/p/2`, with the default depth bound fetches
      the landing page only and finds the two product URLs joined to the
      origin; the plain link is left queued and never fetched. */
  lemma LandingPageExample(fetch: Fetcher, domain: Url, html: string, a: string, b: string, c: string)
    requires domain == "http://x/" && a == "/product/1" && b == "/a" && c == "/p/2"
    requires html != "" && fetch(domain) == Some(Page(html, [a, b, c]))
    ensures Run(Crawler(fetch), Seed(domain), MaxDepth).productUrls == {"http://x" + a, "http://x" + c}
    ensures Run(Crawler(fetch), Seed(domain), MaxDepth).processed == {domain}
    ensures "http://x" + b in Run(Crawler(fetch), Seed(domain), MaxDepth).frontier
  {
    var o := "http://x";
    ProductExample(domain, a, b, c);
    assert ProcessLink(fetch, domain) == Harvest({o + a, o + c}, {o + a, o + b, o + c});
    LandingRound(fetch, domain, {o + a, o + c}, {o + a, o + b, o + c});
    DistinctJoins(o, domain, a, b, c);
  }

  /** The one round of a default crawl: the landing page is fetched, its
      products are found, and its other links, less the page itself, are
      queued. */
  lemma LandingRound(fetch: Fetcher, domain: Url, products: set<Url>, links: set<Url>)
    requires ProcessLink(fetch, domain) == Harvest(products, links)
    ensures Run(Crawler(fetch), Seed(domain), MaxDepth).productUrls == products
    ensures Run(Crawler(fetch), Seed(domain), MaxDepth).processed == {domain}
    ensures Run(Crawler(fetch), Seed(domain), MaxDepth).frontier == links - products - {domain}
  {
    var w := Crawler(fetch);
    var r := Step(w, Seed(domain));
    assert Run(w, Seed(domain), MaxDepth) == Run(w, r, MaxDepth) == r;
    assert w(domain) == Harvest(products, links);
    RoundOfOne(w, domain);
  }

  /** The plain link of the example is neither product URL nor the landing page. */
  lemma DistinctJoins(o: string, domain: Url, a: string, b: string, c: string)
    requires o == "http://x" && domain == "http://x/" && a == "/product/1" && b == "/a" && c == "/p/2"
    ensures o + b != o + a && o + b != o + c && o + b != domain
  {
    assert |o + b| != |o + a| && |o + b| != |domain|;
    assert (o + b)[|o| + 1] != (o + c)[|o| + 1];
  }
}
