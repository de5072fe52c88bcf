/** `process_domain` as the crawler runs it: the crawl state is kept as
    sets of URL digests, every URL the worker reports is registered in the
    table, and digests are resolved back to URLs through the table. Under a
    collision-free digest this crawl is proved to be exactly the URL-space
    crawl `Traversal.Run`. */
module Domain {
  import opened Urls
  import opened Registry
  import opened Worker
  import opened Traversal

  /** The dictionary `process_domain` returns. */
  datatype CrawlResult = CrawlResult(domain: Url, products: set<Url>)

  /** The digest sets and the table stand for the URL-space state `e`:
      each set is the image of its URL counterpart, and the table resolves
      the frontier and the found products. */
  predicate Abstracts(h: Hasher, t: Table, frontier: set<Fingerprint>, processed: set<Fingerprint>,
                      productUrls: set<Fingerprint>, e: Explore)
  {
    && frontier == Image(h, e.frontier)
    && processed == Image(h, e.processed)
    && productUrls == Image(h, e.productUrls)
    && Resolves(h, t, e.frontier + e.productUrls)
  }

  /** A URL set is empty exactly when its image is. */
  lemma ImageEmpty(h: Hasher, urls: set<Url>)
    ensures Image(h, urls) == {} <==> urls == {}
  {
    if urls != {} {
      var u :| u in urls;
      assert h(u) in Image(h, urls);
    }
  }

  /** A table that keeps every entry still resolves what it resolved. */
  lemma ResolvesExtended(h: Hasher, t1: Table, t2: Table, urls: set<Url>)
    requires Resolves(h, t1, urls) && Extends(t1, t2)
    ensures Resolves(h, t2, urls)
  {
  }

  /** The worker calls of one round. Each URL of the round is handed to the
      worker, in the arbitrary order that iteration over a set gives, and
      the digests of the product URLs and of the links it returns are
      registered and collected: the loop over `results` in `process_domain`. */
  method FetchRound(h: Hasher, w: WorkerFn, t: Table, urls: set<Url>)
    returns (newProducts: set<Fingerprint>, newLinks: set<Fingerprint>, t': Table)
    requires Injective(h) && Consistent(h, t)
    ensures newProducts == Image(h, RoundProducts(w, urls))
    ensures newLinks == Image(h, RoundLinks(w, urls))
    ensures Resolves(h, t', RoundProducts(w, urls) + RoundLinks(w, urls))
    ensures Consistent(h, t') && Extends(t, t')
  {
    newProducts, newLinks, t' := {}, {}, t;
    var pending := urls;
    while pending != {}
      invariant pending <= urls
      invariant newProducts == Image(h, RoundProducts(w, urls - pending))
      invariant newLinks == Image(h, RoundLinks(w, urls - pending))
      invariant Resolves(h, t', RoundProducts(w, urls - pending))
      invariant Resolves(h, t', RoundLinks(w, urls - pending))
      invariant Consistent(h, t') && Extends(t, t')
      decreases pending
    {
      var u :| u in pending;
      var result := w(u);
      var p := RegisterAll(h, t', result.products);
      var l := RegisterAll(h, p.table, result.links);
      var done := urls - pending;
      RoundAdd(w, done, u);
      ImageUnion(h, RoundProducts(w, done), result.products);
      ImageUnion(h, RoundLinks(w, done), result.links);
      ResolvesAdded(h, t', l.table, RoundProducts(w, done), result.products, p.table);
      ResolvesAdded(h, t', l.table, RoundLinks(w, done), result.links, l.table);
      newProducts := newProducts + p.fps;
      newLinks := newLinks + l.fps;
      t' := l.table;
      TakeOne(urls, pending, u);
      pending := pending - {u};
    }
    assert urls - pending == urls;
    ResolvesAdded(h, t', t', RoundProducts(w, urls), RoundLinks(w, urls), t');
  }

  /** Moving one URL from the pending set to the done set. */
  lemma TakeOne(urls: set<Url>, pending: set<Url>, u: Url)
    requires u in pending && pending <= urls
    ensures urls - (pending - {u}) == (urls - pending) + {u}
  {
  }

  /** What an older table resolved, and what a newer table along the way
      resolved, stay resolved in a table that extends both. */
  lemma ResolvesAdded(h: Hasher, t0: Table, t2: Table, earlier: set<Url>, added: set<Url>, t1: Table)
    requires Resolves(h, t0, earlier) && Resolves(h, t1, added)
    requires Extends(t0, t2) && Extends(t1, t2)
    ensures Resolves(h, t2, earlier + added)
  {
  }

  /** Adding one page to a round adds exactly that page's harvest. */
  lemma RoundAdd(w: WorkerFn, done: set<Url>, u: Url)
    ensures RoundProducts(w, done + {u}) == RoundProducts(w, done) + w(u).products
    ensures RoundLinks(w, done + {u}) == RoundLinks(w, done) + w(u).links
  {
  }

  /** The digest-level round ends in the digest image of `Traversal.Step`. */
  lemma StepAbstracts(h: Hasher, w: WorkerFn, t: Table, t': Table, frontier: set<Fingerprint>,
                      processed: set<Fingerprint>, productUrls: set<Fingerprint>, e: Explore,
                      newProducts: set<Fingerprint>, newLinks: set<Fingerprint>)
    requires Injective(h)
    requires Abstracts(h, t, frontier, processed, productUrls, e)
    requires newProducts == Image(h, RoundProducts(w, e.frontier))
    requires newLinks == Image(h, RoundLinks(w, e.frontier))
    requires Resolves(h, t', RoundProducts(w, e.frontier) + RoundLinks(w, e.frontier))
    requires Extends(t, t')
    ensures Abstracts(h, t', newLinks - newProducts - (processed + frontier), processed + frontier,
                      productUrls + newProducts, Step(w, e))
  {
    var rp, rl := RoundProducts(w, e.frontier), RoundLinks(w, e.frontier);
    var fetched := e.processed + e.frontier;
    ImageUnion(h, e.processed, e.frontier);
    ImageUnion(h, e.productUrls, rp);
    ImageDifference(h, rl, rp);
    ImageDifference(h, rl - rp, fetched);
    ResolvesExtended(h, t, t', e.productUrls);
  }

  /** What the table resolved before a round, the frontier it fetched, and
      what the round registered, stay resolved after it: the domain, every
      fetched URL and every reported link. */
  lemma SeenAfterStep(h: Hasher, w: WorkerFn, t: Table, t': Table, domain: Url, e: Explore)
    requires Resolves(h, t, {domain} + e.processed + AllLinks(w, e.history))
    requires Resolves(h, t, e.frontier)
    requires Resolves(h, t', RoundProducts(w, e.frontier) + RoundLinks(w, e.frontier))
    requires Extends(t, t')
    ensures Resolves(h, t', {domain} + Step(w, e).processed + AllLinks(w, Step(w, e).history))
  {
    AllLinksSnoc(w, e.history, e.frontier);
    ResolvesExtended(h, t, t', {domain} + e.processed + AllLinks(w, e.history));
    ResolvesExtended(h, t, t', e.frontier);
  }

  /** The loop invariant of `process_domain`: the digest state stands for
      the URL-space state `e`, whose remaining crawl is the whole crawl from
      the domain, and the table is consistent, keeps the entries it started
      with and resolves the domain, every fetched URL and every link
      reported so far. */
  predicate Tracks(h: Hasher, w: WorkerFn, t0: Table, domain: Url, maxDepth: int, t: Table,
                   frontier: set<Fingerprint>, processed: set<Fingerprint>, productUrls: set<Fingerprint>,
                   e: Explore)
  {
    && Abstracts(h, t, frontier, processed, productUrls, e)
    && Run(w, e, maxDepth) == Run(w, Seed(domain), maxDepth)
    && Consistent(h, t) && Extends(t0, t)
    && Resolves(h, t, {domain} + e.processed + AllLinks(w, e.history))
  }

  /** One round of the loop, given what `FetchRound` returns, keeps the
      invariant for the next state. */
  lemma RoundTracks(h: Hasher, w: WorkerFn, t0: Table, domain: Url, maxDepth: int, t: Table, t': Table,
                    frontier: set<Fingerprint>, processed: set<Fingerprint>, productUrls: set<Fingerprint>,
                    e: Explore, newProducts: set<Fingerprint>, newLinks: set<Fingerprint>)
    requires Injective(h)
    requires Tracks(h, w, t0, domain, maxDepth, t, frontier, processed, productUrls, e)
    requires frontier != {} && |e.history| < maxDepth
    requires newProducts == Image(h, RoundProducts(w, e.frontier))
    requires newLinks == Image(h, RoundLinks(w, e.frontier))
    requires Resolves(h, t', RoundProducts(w, e.frontier) + RoundLinks(w, e.frontier))
    requires Consistent(h, t') && Extends(t, t')
    ensures Tracks(h, w, t0, domain, maxDepth, t', newLinks - newProducts - (processed + frontier),
                   processed + frontier, productUrls + newProducts, Step(w, e))
  {
    ImageEmpty(h, e.frontier);
    StepAbstracts(h, w, t, t', frontier, processed, productUrls, e, newProducts, newLinks);
    SeenAfterStep(h, w, t, t', domain, e);
  }

  /** Registering the domain and queueing its digest establishes the
      invariant for the seed state. */
  lemma SeedTracks(h: Hasher, w: WorkerFn, t0: Table, domain: Url, maxDepth: int)
    requires Injective(h) && Consistent(h, t0)
    ensures Tracks(h, w, t0, domain, maxDepth, HashUrl(h, t0, domain).table,
                   {HashUrl(h, t0, domain).fp}, {}, {}, Seed(domain))
  {
    assert Image(h, {domain}) == {h(domain)};
    assert AllLinks(w, []) == {};
  }

  /** When the loop exits, the URL-space state is the whole crawl, the
      product digests resolve to its products, and the table resolves
      everything the crawl registered. */
  lemma TracksAtExit(h: Hasher, w: WorkerFn, t0: Table, domain: Url, maxDepth: int, t: Table,
                     frontier: set<Fingerprint>, processed: set<Fingerprint>, productUrls: set<Fingerprint>,
                     e: Explore)
    requires Tracks(h, w, t0, domain, maxDepth, t, frontier, processed, productUrls, e)
    requires frontier == {} || |e.history| >= maxDepth
    ensures e == Run(w, Seed(domain), maxDepth)
    ensures ResolveAll(t, productUrls) == e.productUrls
    ensures Resolves(h, t, {domain} + e.processed + e.productUrls)
    ensures Resolves(h, t, AllLinks(w, e.history))
  {
    ImageEmpty(h, e.frontier);
    ResolveImage(h, t, e.productUrls);
  }

  /** `process_domain`: register the domain, then run rounds while the
      frontier is non-empty and fewer than `maxDepth` rounds have run. Each
      round resolves the frontier's digests to URLs, fetches them, marks
      them processed, adds the round's product digests to the products and
      makes the round's link digests, less the round's products and the
      processed digests, the next frontier. `rounds` lists the URLs each
      round fetched. The result is the URL-space crawl `Traversal.Run`. */
  method ProcessDomain(h: Hasher, w: WorkerFn, t0: Table, domain: Url, maxDepth: int)
    returns (res: CrawlResult, rounds: seq<set<Url>>, t: Table)
    requires Injective(h) && Consistent(h, t0)
    ensures res.domain == domain
    ensures res.products == Run(w, Seed(domain), maxDepth).productUrls
    ensures rounds == Run(w, Seed(domain), maxDepth).history
    ensures |rounds| <= Rounds(maxDepth)
    ensures maxDepth <= 0 ==> rounds == [] && res.products == {}
    ensures Disjoint(rounds)
    ensures Consistent(h, t) && Extends(t0, t)
    ensures Resolves(h, t, {domain} + Run(w, Seed(domain), maxDepth).processed + res.products)
    ensures Resolves(h, t, AllLinks(w, rounds))
  {
    var reg := HashUrl(h, t0, domain);
    t := reg.table;
    var frontier: set<Fingerprint> := {reg.fp};
    var processed: set<Fingerprint> := {};
    var productUrls: set<Fingerprint> := {};
    var depth: nat := 0;
    rounds := [];
    ghost var e := Seed(domain);
    SeedTracks(h, w, t0, domain, maxDepth);
    while frontier != {} && depth < maxDepth
      invariant Tracks(h, w, t0, domain, maxDepth, t, frontier, processed, productUrls, e)
      invariant depth == |e.history| && rounds == e.history
      decreases maxDepth - depth
    {
      var links := ResolveAll(t, frontier);
      ResolveImage(h, t, e.frontier);
      var newProducts, newLinks, t' := FetchRound(h, w, t, links);
      RoundTracks(h, w, t0, domain, maxDepth, t, t', frontier, processed, productUrls, e, newProducts, newLinks);
      processed := processed + frontier;
      frontier := newLinks - newProducts - processed;
      productUrls := productUrls + newProducts;
      depth := depth + 1;
      rounds := rounds + [links];
      e := Step(w, e);
      t := t';
    }
    TracksAtExit(h, w, t0, domain, maxDepth, t, frontier, processed, productUrls, e);
    res := CrawlResult(domain, ResolveAll(t, productUrls));
    Crawl(w, domain, maxDepth);
  }
}
