# A verified model of the e-commerce product crawler

This project models the sequential crawl logic of `ecommerce_crawler.py` and proves properties of it. The crawler starts from a list of shop domains and crawls each one breadth-first, round by round, up to a depth bound. Every fetched page yields two sets: its links and its product URLs. A product URL is a link whose raw, un-normalised `href` contains one of the `PRODUCT_PATTERNS` path fragments; the pattern is searched before a root-relative `href` is joined to the page's origin. The crawl state is kept as sets of SHA-256 digests, and a global `HASH_TABLE` maps each digest back to its URL.

The modules follow the program's structure:

- `Urls` (`urls.dfy`) covers string-level URL handling:
  - the substring search that `re.search` performs for a literal pattern;
  - `get_base_url`, built on a simplified `urlsplit` (the scheme and the netloc);
  - the root-relative normalisation that both extractors apply.
- `Registry` (`registry.dfy`) covers `hash_url` and `HASH_TABLE`:
  - The digest is the function parameter `h`.
  - Collision-freedom is the explicit assumption `Injective(h)`.
  - The table is passed along as a map value.
- `Extract` (`extract.dfy`) covers `PRODUCT_PATTERNS`, `extract_links` and `extract_product_urls`. A page is given as the sequence of its anchors' `href` values.
- `Worker` (`worker.dfy`) covers `process_link`. The browser download becomes the function parameter `fetch`, which returns an optional page.
- `Traversal` (`traversal.dfy`) is a reference crawl of one domain in URL space, with no digests. It defines one round (`Step`), the depth-bounded loop (`Run`) and the invariant the crawl keeps (`Valid`).
- `Domain` (`domain.dfy`) covers `process_domain` as written, a while loop over digest sets. Under `Injective(h)` it is proved equal to `Traversal.Run`, so hashing does not change what the crawl finds.
- `Pages` (`pages.dfy`) covers `process_pages` with the default depth bound `MAX_DEPTH = 1`, and end-to-end consequences.

## Model

| member | source | states |
|---|---|---|
| `Urls.ContainsSpec` | ecommerce_crawler.py:136 | the left-to-right scan succeeds exactly when the pattern occurs somewhere in the href, which is what `re.search` decides for a pattern without metacharacters |
| `Urls.Normalize` | ecommerce_crawler.py:118-121 | an href is kept verbatim exactly when it does not start with '/' |
| `Urls.SchemeOf` | ecommerce_crawler.py:107 | a URL `scheme:rest` with a well-formed scheme has the lower-cased scheme as its scheme and `rest` as its remainder |
| `Urls.NetlocOf` | ecommerce_crawler.py:107 | after a leading `//`, the netloc runs up to the first '/', '?' or '#' |
| `Urls.BaseUrlOfAbsolute` | ecommerce_crawler.py:105-108 | the origin of `scheme://host` followed by a path, query or fragment is the lower-cased scheme, then `://`, then the host |
| `Urls.NormalizeRootRelative` | ecommerce_crawler.py:118-121 | on a well-formed page URL, a root-relative href becomes the page's `scheme://host` followed by the href |
| `Registry.HashUrl` | ecommerce_crawler.py:98-102 | returns the URL's digest; afterwards the table maps that digest to the URL; no other entry changes; the key set grows by that digest alone; a consistent table stays consistent |
| `Registry.HashUrlIdempotent` | ecommerce_crawler.py:98-102 | registering the same URL twice gives the same digest and the same table as registering it once |
| `Registry.HashUrlKnown` | ecommerce_crawler.py:98-102 | with a collision-free digest, registering a URL whose digest is already present leaves a consistent table unchanged |
| `Registry.RegisterAll` | ecommerce_crawler.py:176-179 | `set(map(hash_url, urls))` returns exactly the digests of the URLs; every URL resolves through the new table; earlier entries are kept; consistency is preserved |
| `Registry.HashEachIsRegisterAll` | ecommerce_crawler.py:176-179 | with a collision-free digest, calling `hash_url` on a list of URLs one after another, in any order, gives the same digests and the same table as registering the set of those URLs at once |
| `Registry.RegisterAllStep` | ecommerce_crawler.py:176-179 | with a collision-free digest, registering one URL and then a set gives the same table and digests as registering the set with that URL added |
| `Registry.RegisterAllIdempotent` | ecommerce_crawler.py:176-179 | registering the same URL set twice gives the same digests and the same table as registering it once |
| `Registry.ImageSize` | ecommerce_crawler.py:98-102 | a collision-free digest maps M distinct URLs to M distinct digests |
| `Registry.RegistryEntryCount` | ecommerce_crawler.py:98-102 | starting from an empty table, registering a set of M distinct URLs leaves exactly M entries |
| `Registry.ResolveAll` | ecommerce_crawler.py:166 | resolving digests through the table gives exactly the URLs stored under them, so no more URLs than digests |
| `Registry.ResolveImage` | ecommerce_crawler.py:190 | resolving the digests of URLs the table resolves gives back exactly those URLs |
| `Registry.ResolveRoundTrip` | ecommerce_crawler.py:166 | in a consistent table, the digests of the resolved URLs are the digests that were resolved |
| `Registry.ImageDifference` | ecommerce_crawler.py:181 | with a collision-free digest, subtracting digest sets subtracts the URL sets they stand for |
| `Registry.CollisionBreaksDifference` | ecommerce_crawler.py:181 | without collision-freedom this fails: two URLs with the same digest make the digest difference lose a URL that the URL difference keeps |
| `Registry.ImageUnion` | ecommerce_crawler.py:177-179 | the digests of a union are the union of the digests |
| `Extract.MatchesAnySpec` | ecommerce_crawler.py:136 | the pattern test succeeds exactly when some pattern of the list occurs in the raw href |
| `Extract.ProductByWitness` | ecommerce_crawler.py:22-30 | an href in which any one of the seven `PRODUCT_PATTERNS` occurs, at any position, is a product link |
| `Extract.ExtractLinks` | ecommerce_crawler.py:111-125 | a URL is among the links exactly when some anchor of the page normalises to it |
| `Extract.ExtractProductUrls` | ecommerce_crawler.py:128-146 | a URL is among the product URLs exactly when some anchor whose raw href matches a pattern normalises to it |
| `Extract.ProductsAreLinks` | ecommerce_crawler.py:134-142 | for the same page and anchors, every product URL is also a link |
| `Extract.NormalizeKeepsProduct` | ecommerce_crawler.py:136-141 | the normalised form of a product href is itself classified as a product |
| `Extract.ExampleClassification` | ecommerce_crawler.py:22-30 | `/product/1` and `/p/2` are product hrefs; `/a` is not |
| `Extract.ThreeAnchors` | ecommerce_crawler.py:134-142 | on a page with three anchors of which the middle one is not a product href, the product URLs are the first and third normalised anchors, and the links are all three |
| `Extract.ProductExample` | ecommerce_crawler.py:116-142 | on `http://x/`, the anchors `/product/1`, `/a` and `/p/2` give exactly two product URLs and three links, each joined to `http://x` |
| `Extract.ProtocolRelativeMisjoined` | ecommerce_crawler.py:118-121 | a protocol-relative href `//y/a` on `http://x/` is joined to the page origin, giving `http://x//y/a`; the origin of that URL is still `http://x` |
| `Extract.OriginCanCompletePattern` | ecommerce_crawler.py:136-141 | the converse of `NormalizeKeepsProduct` fails: on `http://shop/`, the plain href `/a` normalises to `http://shop/a`, in which `/shop/` occurs |
| `Worker.ProcessLink` | ecommerce_crawler.py:149-156 | a failed download or an empty page gives two empty sets; otherwise the result holds the page's product URLs, then its links; the product URLs are always among the links |
| `Traversal.Step` | ecommerce_crawler.py:172-183 | after a round, processed has grown by exactly the old frontier, and the products by exactly the round's products; the new frontier is disjoint from processed and from the round's products; it holds every link of the round that is neither |
| `Traversal.Run` | ecommerce_crawler.py:165-183 | the loop only extends the round history; it exits only when the frontier is empty or the depth bound is reached; it adds no rounds beyond `max_depth`; processed and products only grow |
| `Traversal.StepValid` | ecommerce_crawler.py:172-182 | a round preserves the invariant: processed is the union of the past rounds; no URL belongs to two rounds; the frontier avoids processed; products are what the past rounds yielded |
| `Traversal.RunValid` | ecommerce_crawler.py:165-183 | the invariant holds when the loop exits |
| `Traversal.Crawl` | ecommerce_crawler.py:159-191 | a crawl runs at most `max_depth` rounds; with `max_depth <= 0` it fetches nothing and finds no products; it stops early only on an empty frontier; the first round fetches the domain alone; no URL is fetched in two rounds; the products are exactly what the fetched pages yield |
| `Traversal.SingleRound` | ecommerce_crawler.py:159-183 | with a depth bound of one, only the landing page is fetched, and the products are that page's product URLs |
| `Traversal.ProductCanReenterFrontier` | ecommerce_crawler.py:181-182 | a URL found as a product in one round, and linked as a plain link in the next, is queued again, because only the current round's products are subtracted |
| `Domain.FetchRound` | ecommerce_crawler.py:166-179 | the per-result fold collects exactly the digests of the round's product URLs and of its links, and leaves them all resolvable in an extended, consistent table |
| `Domain.StepAbstracts` | ecommerce_crawler.py:172-182 | the digest-level merge of a round yields the digest image of the URL-level round |
| `Domain.ProcessDomain` | ecommerce_crawler.py:159-191 | the returned products and the URLs fetched per round equal those of `Traversal.Run`; there are at most `max_depth` rounds, no URL is fetched twice, and with `max_depth <= 0` there are no rounds and no products; the table keeps its old entries and ends up resolving the domain, every fetched URL, every product URL and every link any round reported |
| `Domain.SeenAfterStep` | ecommerce_crawler.py:161-182 | after a round, the table resolves the domain, every URL fetched so far and every link reported so far, as `hash_url` registers them at lines 161, 176 and 178 |
| `Pages.DefaultCrawl` | ecommerce_crawler.py:159 | with the default `MAX_DEPTH` of one, a crawl fetches only the landing page, and its products are that page's |
| `Pages.ProcessPages` | ecommerce_crawler.py:194-199 | one result per domain, in the order of the input list, each naming its domain and holding the products of that domain's crawl, which are the landing page's product URLs |
| `Pages.FailedLanding` | ecommerce_crawler.py:149-153 | when the landing page cannot be downloaded, the crawl ends after at most one round with no products, whatever the depth bound |
| `Pages.LandingRound` | ecommerce_crawler.py:172-183 | a default crawl finds the landing page's products, marks only that page processed, and queues its other links, less the page itself |
| `Pages.LandingPageExample` | ecommerce_crawler.py:159-191 | crawling `http://x/`, whose anchors are `/product/1`, `/a` and `/p/2`, finds the two product URLs; `http://x/a` is left queued and never fetched |

## Behaviour of the code

A URL found as a product can be queued again. When the code builds the next frontier (line 181), it subtracts only the current round's products and the processed digests, not every product found so far.

- `Traversal.ProductCanReenterFrontier` shows a product URL queued again in the next round but one.
- `Extract.OriginCanCompletePattern` shows that such a URL can arise. A plain `href` can normalise to a URL that is itself classified as a product when another page links to it absolutely.

With the default depth bound of one, this has no effect: no second round runs.

`process_pages` returns its results in the order of the domain list, because it collects the futures in that order (lines 197-198). `Pages.ProcessPages` states that order.

## Left out

- The browser is left out: `get_driver`, `scroll_page`, `click_load_more_buttons` and the body of `downlaod_page`. They are I/O and timing. A download is the function parameter `fetch`, which is total: every call returns, with either a page or `None`. Two behaviours of the code are therefore not modelled:
  - `get_driver()` is called at line 83, before the `try` at line 84. An exception there escapes `process_link`. It is re-raised by the executor at line 168, which aborts `process_domain`, and again by `future.result()` at line 198, which aborts `process_pages` for every domain.
  - `scroll_page` (lines 56-62) and `click_load_more_buttons` (lines 67-75) loop without a bound, so a download need not return at all.
- BeautifulSoup parsing is left out, along with the exception handlers around it that return empty sets. A page is given as its source text plus the `href` values of its anchors. Only the emptiness of the source text matters to the crawler.
- `urlparse` is simplified to the parts `get_base_url` uses, the scheme and the netloc. Four of its behaviours are not modelled:
  - the stripping of leading whitespace and control characters;
  - the deletion of every tab, carriage return and line feed anywhere in the URL: the model's `BaseUrl` keeps them, so for `http://a\tb/` it gives `http://a\tb` where `get_base_url` gives `http://ab`;
  - the `ValueError` it raises on malformed IPv6 brackets;
  - the `ValueError` it raises on a non-ASCII netloc whose NFKC form contains `/`, `?`, `#`, `@` or `:` (for example U+2100, ACCOUNT OF).

  Such a `ValueError` in `get_base_url` is caught by the extractor's handler (line 124 or line 144), which then returns an empty set. `extract_links` calls `get_base_url` for every root-relative `href` (line 120), while `extract_product_urls` calls it only for root-relative product hrefs (line 140). So on such a page URL the links can come back empty while the products do not.
- `Extract.ProductsAreLinks`: holds only for page URLs that `get_base_url` accepts. On a page URL that makes `urlparse` raise, the source can return product URLs that are not among the links.
- `Worker.ProcessLink`: the promise that the product URLs are among the links holds only for page URLs that `get_base_url` accepts, for the same reason.
- SHA-256 is left out. The digest is a function parameter, and its collision-freedom is a stated assumption, not a proof.
- `ThreadPoolExecutor` and `ProcessPoolExecutor` (`THREAD_POOL`, `PROCESS_POOL`) are left out. The model runs the rounds and the domains sequentially. `executor.map` returns results in input order and they are folded into sets, so the order does not matter. That each worker process has its own copy of `HASH_TABLE` is not modelled: one table is passed from crawl to crawl.
- `Registry.RegisterAll` registers a whole URL set at once rather than one URL after another. `Registry.HashEachIsRegisterAll` proves that, with a collision-free digest, calling `hash_url` on the URLs one after another, in any order, gives the same digests and the same table.
- The writes to `product_urls.log` and `product_urls.json`, the `print` progress output and `main`'s hard-coded domain list are left out. They are output and configuration, not crawl logic.
- `Domain.ProcessDomain` returns the products as a set. The source returns a list built by iterating over a set, so its order is unspecified anyway.
