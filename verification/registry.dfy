/** The URL registry: a content-addressed table from a URL's digest to the
    URL string (the crawler's global hash table filled by `hash_url`).
    The digest itself (a SHA-256 hex digest in the crawler) is the function
    parameter `h`; that it never collides is the explicit assumption
    `Injective(h)`. The table is threaded through as a value. */
module Registry {
  import opened Urls

  type Fingerprint = string
  type Hasher = Url -> Fingerprint
  type Table = map<Fingerprint, Url>

  /** Collision-freedom of the digest. */
  ghost predicate Injective(h: Hasher) {
    forall u, v :: h(u) == h(v) ==> u == v
  }

  /** Every stored URL sits under its own digest. */
  predicate Consistent(h: Hasher, t: Table) {
    forall k :: k in t ==> h(t[k]) == k
  }

  /** Looking up the digest of every URL of `urls` gives that URL back. */
  predicate Resolves(h: Hasher, t: Table, urls: set<Url>) {
    forall u :: u in urls ==> h(u) in t && t[h(u)] == u
  }

  /** `t2` keeps every entry of `t1`. */
  predicate Extends(t1: Table, t2: Table) {
    forall k :: k in t1 ==> k in t2 && t2[k] == t1[k]
  }

  /** The digests of a set of URLs. */
  function Image(h: Hasher, urls: set<Url>): set<Fingerprint> {
    set u | u in urls :: h(u)
  }

  datatype Registered = Registered(fp: Fingerprint, table: Table)

  datatype RegisteredAll = RegisteredAll(fps: set<Fingerprint>, table: Table)

  /** `hash_url`: digest a URL, store it under its digest, return the digest. */
  function HashUrl(h: Hasher, t: Table, url: Url): (r: Registered)
    ensures r.fp == h(url)
    ensures r.fp in r.table && r.table[r.fp] == url
    ensures r.table.Keys == t.Keys + {r.fp}
    ensures forall k :: k in t && k != r.fp ==> r.table[k] == t[k]
    ensures Consistent(h, t) ==> Consistent(h, r.table)
  {
    Registered(h(url), t[h(url) := url])
  }

  /** Registering the same URL a second time changes nothing. */
  lemma HashUrlIdempotent(h: Hasher, t: Table, url: Url)
    ensures HashUrl(h, HashUrl(h, t, url).table, url) == HashUrl(h, t, url)
  {
    var once := HashUrl(h, t, url).table;
    assert once[h(url) := url] == once;
  }

  /** Under collision-freedom, registering a URL whose digest is already
      present leaves a consistent table as it was: the registry is
      append-only. */
  lemma HashUrlKnown(h: Hasher, t: Table, url: Url)
    requires Injective(h)
    requires Consistent(h, t)
    requires h(url) in t
    ensures HashUrl(h, t, url).table == t
  {
    assert h(t[h(url)]) == h(url);
    assert t[h(url)] == url;
  }

  /** `set(map(hash_url, urls))`: register every URL of a set and collect
      the digests. The whole set is added at once; `HashEachIsRegisterAll`
      shows that one `hash_url` call after another, in any order, gives the
      same table and digests under a collision-free digest. */
  function RegisterAll(h: Hasher, t: Table, urls: set<Url>): (r: RegisteredAll)
    requires Injective(h)
    ensures r.fps == Image(h, urls)
    ensures Resolves(h, r.table, urls)
    ensures r.table.Keys == t.Keys + r.fps
    ensures forall k :: k in t && k !in r.fps ==> r.table[k] == t[k]
    ensures Consistent(h, t) ==> Consistent(h, r.table)
    ensures Consistent(h, t) ==> Extends(t, r.table)
  {
    var added := Entries(h, urls);
    RegisteredAll(added.Keys, t + added)
  }

  /** The table entries that registering `urls` writes. */
  function Entries(h: Hasher, urls: set<Url>): (m: Table)
    requires Injective(h)
    ensures m.Keys == Image(h, urls)
    ensures forall u :: u in urls ==> m[h(u)] == u
    ensures Consistent(h, m)
  {
    map u | u in urls :: h(u) := u
  }

  /** `map(hash_url, urls)` over a list, one call after another, collecting
      the digests. */
  function HashEach(h: Hasher, t: Table, urls: seq<Url>): RegisteredAll
    decreases |urls|
  {
    if urls == [] then RegisteredAll({}, t)
    else
      var first := HashUrl(h, t, urls[0]);
      var rest := HashEach(h, first.table, urls[1..]);
      RegisteredAll({first.fp} + rest.fps, rest.table)
  }

  /** The URLs of a list, as a set. */
  function Elements(urls: seq<Url>): set<Url> {
    set i | 0 <= i < |urls| :: urls[i]
  }

  /** Registering one URL and then a set is registering their union. */
  lemma RegisterAllStep(h: Hasher, t: Table, u: Url, rest: set<Url>)
    requires Injective(h)
    ensures RegisterAll(h, HashUrl(h, t, u).table, rest).table == RegisterAll(h, t, {u} + rest).table
    ensures {HashUrl(h, t, u).fp} + RegisterAll(h, HashUrl(h, t, u).table, rest).fps
      == RegisterAll(h, t, {u} + rest).fps
  {
    ImageUnion(h, {u}, rest);
    assert Image(h, {u}) == {h(u)};
    StepTable(h, t, u, rest);
  }

  /** Registering `u` into `t` and then `rest` writes the same table as
      registering `{u} + rest` into `t`. */
  lemma StepTable(h: Hasher, t: Table, u: Url, rest: set<Url>)
    requires Injective(h)
    ensures t[h(u) := u] + Entries(h, rest) == t + Entries(h, {u} + rest)
  {
    StepTableKeys(h, t, u, rest);
    StepTableValues(h, t, u, rest);
  }

  lemma StepTableKeys(h: Hasher, t: Table, u: Url, rest: set<Url>)
    requires Injective(h)
    ensures (t[h(u) := u] + Entries(h, rest)).Keys == (t + Entries(h, {u} + rest)).Keys
  {
    ImageUnion(h, {u}, rest);
    assert Image(h, {u}) == {h(u)};
  }

  lemma StepTableValues(h: Hasher, t: Table, u: Url, rest: set<Url>)
    requires Injective(h)
    ensures forall k :: k in t[h(u) := u] + Entries(h, rest) && k in t + Entries(h, {u} + rest) ==>
      (t[h(u) := u] + Entries(h, rest))[k] == (t + Entries(h, {u} + rest))[k]
  {
    var lhs := t[h(u) := u] + Entries(h, rest);
    var rhs := t + Entries(h, {u} + rest);
    var all := Entries(h, {u} + rest);
    assert all.Keys == Image(h, {u} + rest);
    forall k | k in lhs && k in rhs
      ensures lhs[k] == rhs[k]
    {
      if v :| v in rest && h(v) == k {
        assert lhs[k] == v && all[k] == v;
      } else if k == h(u) {
        assert all[k] == u;
      }
    }
  }

  /** The elements of a non-empty list are its head and those of its tail. */
  lemma ElementsCons(urls: seq<Url>)
    requires urls != []
    ensures Elements(urls) == {urls[0]} + Elements(urls[1..])
  {
    forall x | x in Elements(urls)
      ensures x in {urls[0]} + Elements(urls[1..])
    {
      var i :| 0 <= i < |urls| && urls[i] == x;
      if i > 0 {
        assert urls[1..][i - 1] == x;
      }
    }
    forall x | x in Elements(urls[1..])
      ensures x in Elements(urls)
    {
      var i :| 0 <= i < |urls[1..]| && urls[1..][i] == x;
      assert urls[i + 1] == x;
    }
  }

  /** Whatever order `hash_url` is applied in, the table and the digests
      are those of registering the whole set at once. */
  lemma {:induction false} HashEachIsRegisterAll(h: Hasher, t: Table, urls: seq<Url>)
    requires Injective(h)
    ensures HashEach(h, t, urls) == RegisterAll(h, t, Elements(urls))
    decreases |urls|
  {
    if urls != [] {
      var first := HashUrl(h, t, urls[0]);
      HashEachIsRegisterAll(h, first.table, urls[1..]);
      RegisterAllStep(h, t, urls[0], Elements(urls[1..]));
      ElementsCons(urls);
    } else {
      assert Elements(urls) == {};
      assert Entries(h, {}) == map[];
    }
  }

  /** Registering the same set a second time changes nothing. */
  lemma RegisterAllIdempotent(h: Hasher, t: Table, urls: set<Url>)
    requires Injective(h)
    ensures RegisterAll(h, RegisterAll(h, t, urls).table, urls) == RegisterAll(h, t, urls)
  {
    var once := RegisterAll(h, t, urls).table;
    var twice := RegisterAll(h, once, urls).table;
    assert twice.Keys == once.Keys;
    forall k | k in once
      ensures twice[k] == once[k]
    {
      if u :| u in urls && h(u) == k {
        assert twice[k] == u;
      }
    }
  }

  /** A collision-free digest takes a set of URLs to as many fingerprints. */
  lemma {:induction false} ImageSize(h: Hasher, urls: set<Url>)
    requires Injective(h)
    ensures |Image(h, urls)| == |urls|
    decreases urls
  {
    if urls != {} {
      var u :| u in urls;
      var rest := urls - {u};
      ImageSize(h, rest);
      assert Image(h, urls) == Image(h, rest) + {h(u)};
      assert h(u) !in Image(h, rest);
    }
  }

  /** Starting from an empty registry, registering M distinct URLs
      (repeatedly, in any grouping) leaves exactly M entries. */
  lemma RegistryEntryCount(h: Hasher, urls: set<Url>)
    requires Injective(h)
    ensures |RegisterAll(h, map[], urls).table| == |urls|
  {
    var r := RegisterAll(h, map[], urls);
    assert r.table.Keys == Image(h, urls);
    ImageSize(h, urls);
  }

  /** Resolving fingerprints back to URLs, `HASH_TABLE[x]` for each `x`. */
  function ResolveAll(t: Table, fps: set<Fingerprint>): (urls: set<Url>)
    requires fps <= t.Keys
    ensures forall k :: k in fps ==> t[k] in urls
    ensures forall u :: u in urls ==> exists k :: k in fps && t[k] == u
    ensures |urls| <= |fps|
  {
    var urls := set k | k in fps :: t[k];
    ResolveSize(t, fps);
    urls
  }

  /** Resolving never yields more URLs than there are digests. */
  lemma {:induction false} ResolveSize(t: Table, fps: set<Fingerprint>)
    requires fps <= t.Keys
    ensures |set k | k in fps :: t[k]| <= |fps|
    decreases fps
  {
    if fps != {} {
      var k :| k in fps;
      var rest := fps - {k};
      ResolveSize(t, rest);
      assert (set j | j in fps :: t[j]) == (set j | j in rest :: t[j]) + {t[k]};
    }
  }

  /** Resolving the digests of resolvable URLs gives the URLs back. */
  lemma ResolveImage(h: Hasher, t: Table, urls: set<Url>)
    requires Resolves(h, t, urls)
    ensures Image(h, urls) <= t.Keys
    ensures ResolveAll(t, Image(h, urls)) == urls
  {
    var back := ResolveAll(t, Image(h, urls));
    forall x | x in back
      ensures x in urls
    {
      var k :| k in Image(h, urls) && t[k] == x;
      var u :| u in urls && h(u) == k;
    }
  }

  /** Digests of resolved fingerprints are the fingerprints themselves. */
  lemma ResolveRoundTrip(h: Hasher, t: Table, fps: set<Fingerprint>)
    requires Consistent(h, t)
    requires fps <= t.Keys
    ensures Image(h, ResolveAll(t, fps)) == fps
  {
    forall k | k in fps
      ensures k in Image(h, ResolveAll(t, fps))
    {
      assert h(t[k]) == k;
    }
  }

  /** With a collision-free digest, digests commute with set difference:
      subtracting fingerprint sets subtracts the URL sets they stand for. */
  lemma ImageDifference(h: Hasher, a: set<Url>, b: set<Url>)
    requires Injective(h)
    ensures Image(h, a - b) == Image(h, a) - Image(h, b)
  {
    forall k | k in Image(h, a) - Image(h, b)
      ensures k in Image(h, a - b)
    {
      var u :| u in a && h(u) == k;
      assert u !in b;
    }
  }

  /** Collision-freedom is needed: two colliding URLs make the fingerprint
      difference lose a URL the URL difference keeps. */
  lemma CollisionBreaksDifference(h: Hasher, u: Url, v: Url)
    requires u != v && h(u) == h(v)
    ensures Image(h, {u} - {v}) != Image(h, {u}) - Image(h, {v})
  {
    assert Image(h, {u} - {v}) == {h(u)};
    assert Image(h, {u}) == Image(h, {v});
  }

  /** The digests of a union are the union of the digests. */
  lemma ImageUnion(h: Hasher, a: set<Url>, b: set<Url>)
    ensures Image(h, a + b) == Image(h, a) + Image(h, b)
  {
  }
}
