/** The per-URL worker `process_link`: fetch a page, then run both
    extractors on it. The browser is the function parameter `fetch`, which
    yields no page when the download fails. */
module Worker {
  import opened Urls
  import opened Extract

  datatype Option<T> = None | Some(value: T)

  /** A downloaded page: its source text and the `href` values of its
      anchors, in document order. */
  datatype Page = Page(html: string, hrefs: seq<string>)

  type Fetcher = Url -> Option<Page>

  /** What one worker call returns: `(product_urls, links)`. */
  datatype Harvest = Harvest(products: set<Url>, links: set<Url>)

  /** The fetch produced something to parse: a page with non-empty source. */
  predicate Fetched(fetch: Fetcher, link: Url) {
    fetch(link).Some? && fetch(link).value.html != ""
  }

  /** `process_link`: a failed download or an empty page gives two empty
      sets; otherwise the product URLs and the links of the page. */
  function ProcessLink(fetch: Fetcher, link: Url): (r: Harvest)
    ensures !Fetched(fetch, link) ==> r.products == {} && r.links == {}
    ensures Fetched(fetch, link) ==> forall u ::
      (u in r.products <==> ProductLinked(link, fetch(link).value.hrefs, u)) &&
      (u in r.links <==> Linked(link, fetch(link).value.hrefs, u))
    ensures r.products <= r.links
  {
    match fetch(link)
    case None => Harvest({}, {})
    case Some(page) =>
      if page.html == "" then Harvest({}, {})
      else
        ProductsAreLinks(link, page.hrefs);
        Harvest(ExtractProductUrls(link, page.hrefs), ExtractLinks(link, page.hrefs))
  }
}
