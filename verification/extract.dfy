/** Link extraction from a fetched page. HTML parsing is abstracted away:
    a page is given as the sequence of `href` values of its anchors, in
    document order. Both extractors normalise with `Urls.Normalize`; the
    product extractor keeps only hrefs in which a product pattern occurs. */
module Extract {
  import opened Urls

  /** `PRODUCT_PATTERNS`: literal path fragments, so a regular-expression
      search for one is a plain substring test. */
  const ProductPatterns: seq<string> :=
    ["/product/", "/products/", "/item/", "/p/", "/shop/", "/goods/", "/fashion/"]

  /** `any(re.search(pattern, href) for pattern in patterns)`. */
  function MatchesAny(href: string, patterns: seq<string>): bool {
    if patterns == [] then false
    else Contains(href, patterns[0]) || MatchesAny(href, patterns[1..])
  }

  /** The search succeeds exactly when some pattern occurs in the href. */
  lemma {:induction false} MatchesAnySpec(href: string, patterns: seq<string>)
    ensures MatchesAny(href, patterns) <==> exists j :: 0 <= j < |patterns| && Occurs(patterns[j], href)
  {
    if patterns != [] {
      ContainsSpec(href, patterns[0]);
      MatchesAnySpec(href, patterns[1..]);
      assert forall j :: 0 < j < |patterns| ==> patterns[1..][j - 1] == patterns[j];
    }
  }

  /** Product classification of a raw, un-normalised href. */
  predicate IsProduct(href: string) {
    MatchesAny(href, ProductPatterns)
  }

  /** Some anchor of the page normalises to `u`. */
  predicate Linked(page: Url, hrefs: seq<string>, u: Url) {
    exists i :: 0 <= i < |hrefs| && Normalize(page, hrefs[i]) == u
  }

  /** Some product anchor of the page normalises to `u`. */
  predicate ProductLinked(page: Url, hrefs: seq<string>, u: Url) {
    exists i :: 0 <= i < |hrefs| && IsProduct(hrefs[i]) && Normalize(page, hrefs[i]) == u
  }

  /** An href in which the `j`-th pattern occurs is a product link. */
  lemma ProductByWitness(href: string, j: nat, i: nat)
    requires j < |ProductPatterns| && OccursAt(ProductPatterns[j], href, i)
    ensures IsProduct(href)
  {
    MatchesAnySpec(href, ProductPatterns);
  }

  /** `extract_links`: the normalised href of every anchor of the page. */
  function ExtractLinks(page: Url, hrefs: seq<string>): (links: set<Url>)
    ensures forall u :: u in links <==> Linked(page, hrefs, u)
  {
    if hrefs == [] then {}
    else
      var n := |hrefs| - 1;
      LinkedLast(page, hrefs);
      ExtractLinks(page, hrefs[..n]) + {Normalize(page, hrefs[n])}
  }

  /** `extract_product_urls`: the normalised href of every anchor whose raw
      href is a product link. */
  function ExtractProductUrls(page: Url, hrefs: seq<string>): (products: set<Url>)
    ensures forall u :: u in products <==> ProductLinked(page, hrefs, u)
  {
    if hrefs == [] then {}
    else
      var n := |hrefs| - 1;
      LinkedLast(page, hrefs);
      var earlier := ExtractProductUrls(page, hrefs[..n]);
      if IsProduct(hrefs[n]) then earlier + {Normalize(page, hrefs[n])} else earlier
  }

  /** Peeling the last anchor off the page. */
  lemma LinkedLast(page: Url, hrefs: seq<string>)
    requires hrefs != []
    ensures forall u :: Linked(page, hrefs, u) <==>
      Linked(page, hrefs[..|hrefs| - 1], u) || Normalize(page, hrefs[|hrefs| - 1]) == u
    ensures forall u :: ProductLinked(page, hrefs, u) <==>
      ProductLinked(page, hrefs[..|hrefs| - 1], u)
      || (IsProduct(hrefs[|hrefs| - 1]) && Normalize(page, hrefs[|hrefs| - 1]) == u)
  {
    var n := |hrefs| - 1;
    assert forall i :: 0 <= i < n ==> hrefs[..n][i] == hrefs[i];
  }

  /** Every product URL of a page is also one of its links. */
  lemma {:induction false} ProductsAreLinks(page: Url, hrefs: seq<string>)
    ensures ExtractProductUrls(page, hrefs) <= ExtractLinks(page, hrefs)
  {
    if hrefs != [] {
      ProductsAreLinks(page, hrefs[..|hrefs| - 1]);
    }
  }

  /** Normalisation never loses a product pattern: the normalised form of a
      product href is itself classified as a product. */
  lemma NormalizeKeepsProduct(page: Url, href: string)
    requires IsProduct(href)
    ensures IsProduct(Normalize(page, href))
  {
    MatchesAnySpec(href, ProductPatterns);
    MatchesAnySpec(Normalize(page, href), ProductPatterns);
    var j :| 0 <= j < |ProductPatterns| && Occurs(ProductPatterns[j], href);
    if StartsWith(href, "/") {
      OccursUnderPrefix(ProductPatterns[j], BaseUrl(page), href);
    }
  }

  /** `/a` is too short for any product pattern but `/p/`, and is not `/p/`. */
  lemma PlainIsNotProduct()
    ensures !IsProduct("/a")
  {
    assert ContainsFrom("/a", "/p/", 0) == false;
  }

  /** `http` is a well-formed, lower-case scheme. */
  lemma HttpScheme()
    ensures ValidScheme("http") && Lower("http") == "http"
  {
  }

  /** The origin of a page URL `scheme://host/`, for a lower-case scheme
      and a host free of delimiters. */
  lemma OriginOf(scheme: string, host: string, page: Url, origin: string)
    requires ValidScheme(scheme) && Lower(scheme) == scheme
    requires FirstOf(host, NetlocStops) == |host|
    requires page == scheme + "://" + host + "/"
    requires origin == scheme + "://" + host
    ensures forall href :: StartsWith(href, "/") ==> Normalize(page, href) == origin + href
  {
    assert FirstOf("/", NetlocStops) == 0;
    BaseUrlOfAbsolute(scheme, host, "/");
  }

  /** Pattern matching searches anywhere in the href rather than anchoring
      it: of the anchors `a`, `b`, `c` on the page `http://x/`, the ones
      containing `/product/` and `/p/` give product URLs, `/a` does not, and
      all three are links, each joined to the origin `http://x`. */
  lemma ProductExample(page: Url, a: string, b: string, c: string)
    requires page == "http://x/" && a == "/product/1" && b == "/a" && c == "/p/2"
    ensures ExtractProductUrls(page, [a, b, c]) == {"http://x" + a, "http://x" + c}
    ensures ExtractLinks(page, [a, b, c]) == {"http://x" + a, "http://x" + b, "http://x" + c}
  {
    ExampleClassification(a, b, c);
    XOrigin(page);
    var o := "http://x";
    assert Normalize(page, a) == o + a && Normalize(page, b) == o + b && Normalize(page, c) == o + c;
    ThreeAnchors(page, a, b, c, o + a, o + b, o + c);
  }

  /** Extraction from a page with three anchors, the middle one not a
      product link. */
  lemma ThreeAnchors(page: Url, a: string, b: string, c: string, na: Url, nb: Url, nc: Url)
    requires Normalize(page, a) == na && Normalize(page, b) == nb && Normalize(page, c) == nc
    requires IsProduct(a) && !IsProduct(b) && IsProduct(c)
    ensures ExtractProductUrls(page, [a, b, c]) == {na, nc}
    ensures ExtractLinks(page, [a, b, c]) == {na, nb, nc}
  {
    ThreeAnchorProducts(page, a, b, c, na, nc);
    ThreeAnchorLinks(page, a, b, c, na, nb, nc);
  }

  /** The product half of `ThreeAnchors`. */
  lemma ThreeAnchorProducts(page: Url, a: string, b: string, c: string, na: Url, nc: Url)
    requires Normalize(page, a) == na && Normalize(page, c) == nc
    requires IsProduct(a) && !IsProduct(b) && IsProduct(c)
    ensures ExtractProductUrls(page, [a, b, c]) == {na, nc}
  {
    assert [a, b, c][..2] == [a, b] && [a, b][..1] == [a] && [a][..0] == [];
    assert ExtractProductUrls(page, [a]) == {na};
    assert ExtractProductUrls(page, [a, b]) == {na};
  }

  /** The link half of `ThreeAnchors`. */
  lemma ThreeAnchorLinks(page: Url, a: string, b: string, c: string, na: Url, nb: Url, nc: Url)
    requires Normalize(page, a) == na && Normalize(page, b) == nb && Normalize(page, c) == nc
    ensures ExtractLinks(page, [a, b, c]) == {na, nb, nc}
  {
    assert [a, b, c][..2] == [a, b] && [a, b][..1] == [a] && [a][..0] == [];
    assert ExtractLinks(page, [a]) == {na};
    assert ExtractLinks(page, [a, b]) == {na, nb};
  }

  /** The anchors of `ProductExample`, classified. */
  lemma ExampleClassification(a: string, b: string, c: string)
    requires a == "/product/1" && b == "/a" && c == "/p/2"
    ensures IsProduct(a) && !IsProduct(b) && IsProduct(c)
    ensures StartsWith(a, "/") && StartsWith(b, "/") && StartsWith(c, "/")
  {
    assert OccursAt("/product/", a, 0);
    ProductByWitness(a, 0, 0);
    assert OccursAt("/p/", c, 0);
    ProductByWitness(c, 3, 0);
    PlainIsNotProduct();
  }

  /** Root-relative hrefs on `http://x/` are joined to `http://x`. */
  lemma XOrigin(page: Url)
    requires page == "http://x/"
    ensures forall href :: StartsWith(href, "/") ==> Normalize(page, href) == "http://x" + href
  {
    HttpScheme();
    assert FirstOf("x", NetlocStops) == 1;
    OriginOf("http", "x", page, "http://x");
  }

  /** A protocol-relative href `//host/path` also starts with '/', so it is
      joined to the page's origin like a root-relative one: on the page
      `http://x/` the href `//y/a` becomes `http://x//y/a`, a URL whose
      origin is still `http://x` rather than `http://y`. */
  lemma ProtocolRelativeMisjoined(page: Url, href: string)
    requires page == "http://x/" && href == "//y/a"
    ensures Normalize(page, href) == "http://x" + href
    ensures BaseUrl(Normalize(page, href)) == "http://x"
  {
    XOrigin(page);
    assert StartsWith(href, "/");
    JoinedOrigin(href);
  }

  /** The origin of `http://x//y/a` is `http://x`: the netloc ends at the
      first '/' after the host. */
  lemma JoinedOrigin(href: string)
    requires href == "//y/a"
    ensures BaseUrl("http://x" + href) == "http://x"
  {
    HttpScheme();
    assert FirstOf("x", NetlocStops) == 1;
    assert FirstOf(href, NetlocStops) == 0;
    assert "http://x" + href == "http" + "://" + "x" + href;
    BaseUrlOfAbsolute("http", "x", href);
  }

  /** The converse of `NormalizeKeepsProduct` fails: the origin can
      complete a pattern, so a plain href can normalise to the very URL
      that a product href names. On the page `http://shop/` the plain href
      `/a` becomes `http://shop/a`, in which `/shop/` occurs. */
  lemma OriginCanCompletePattern(page: Url, href: string, u: Url)
    requires page == "http://shop/" && href == "/a" && u == "http://shop/a"
    ensures !IsProduct(href)
    ensures IsProduct(u)
    ensures Normalize(page, href) == u
  {
    PlainIsNotProduct();
    ShopAIsProduct(u);
    ShopOrigin(page);
    assert StartsWith(href, "/");
  }

  /** `/shop/` occurs in `http://shop/a`. */
  lemma ShopAIsProduct(u: Url)
    requires u == "http://shop/a"
    ensures IsProduct(u)
  {
    assert OccursAt("/shop/", u, 6);
    ProductByWitness(u, 4, 6);
  }

  /** Root-relative hrefs on `http://shop/` are joined to `http://shop`. */
  lemma ShopOrigin(page: Url)
    requires page == "http://shop/"
    ensures forall href :: StartsWith(href, "/") ==> Normalize(page, href) == "http://shop" + href
  {
    HttpScheme();
    assert FirstOf("shop", NetlocStops) == 4;
    OriginOf("http", "shop", page, "http://shop");
  }
}
