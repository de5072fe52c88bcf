/** String-level URL handling used by the crawler's link extraction:
    prefix and substring tests, the `scheme://netloc` origin of a page URL
    (a simplified `urllib.parse.urlsplit`), and the root-relative link
    normalisation both extractors apply. */
module Urls {

  type Url = string

  predicate StartsWith(s: string, prefix: string) {
    |prefix| <= |s| && s[..|prefix|] == prefix
  }

  /** `sub` occurs in `s` starting at index `i`. */
  predicate OccursAt(sub: string, s: string, i: nat) {
    i + |sub| <= |s| && s[i..i + |sub|] == sub
  }

  /** `sub` occurs somewhere in `s` (what `re.search` of a literal pattern decides). */
  predicate Occurs(sub: string, s: string) {
    exists i: nat :: i <= |s| && OccursAt(sub, s, i)
  }

  /** Character-by-character comparison of `sub` with `s` at offset `i`,
      from the `k`-th character of `sub` on. */
  function AgreesFrom(sub: string, s: string, i: nat, k: nat): bool
    requires i + |sub| <= |s|
    decreases |sub| - k
  {
    if k >= |sub| then true
    else s[i + k] == sub[k] && AgreesFrom(sub, s, i, k + 1)
  }

  /** Left-to-right scan for `sub` from index `i` on. */
  function ContainsFrom(s: string, sub: string, i: nat): bool
    decreases |s| - i
  {
    if i + |sub| > |s| then false
    else AgreesFrom(sub, s, i, 0) || ContainsFrom(s, sub, i + 1)
  }

  /** `re.search` of a literal pattern: whether `sub` occurs in `s`. */
  function Contains(s: string, sub: string): bool {
    ContainsFrom(s, sub, 0)
  }

  /** The scan decides occurrence. */
  lemma ContainsSpec(s: string, sub: string)
    ensures Contains(s, sub) <==> Occurs(sub, s)
  {
    ContainsFromSpec(s, sub, 0);
  }

  lemma {:induction false} AgreesFromSpec(sub: string, s: string, i: nat, k: nat)
    requires i + |sub| <= |s|
    ensures AgreesFrom(sub, s, i, k) <==> forall m :: k <= m < |sub| ==> s[i + m] == sub[m]
    decreases |sub| - k
  {
    if k < |sub| {
      AgreesFromSpec(sub, s, i, k + 1);
    }
  }

  /** The scan finds exactly the occurrences at or after `i`. */
  lemma {:induction false} ContainsFromSpec(s: string, sub: string, i: nat)
    ensures ContainsFrom(s, sub, i) <==> exists j: nat :: i <= j && OccursAt(sub, s, j)
    decreases |s| - i
  {
    if i + |sub| <= |s| {
      AgreesFromSpec(sub, s, i, 0);
      var w := s[i..i + |sub|];
      assert forall m :: 0 <= m < |sub| ==> w[m] == s[i + m];
      assert AgreesFrom(sub, s, i, 0) <==> OccursAt(sub, s, i);
      ContainsFromSpec(s, sub, i + 1);
      assert (exists j: nat :: i <= j && OccursAt(sub, s, j)) <==>
        OccursAt(sub, s, i) || exists j: nat :: i + 1 <= j && OccursAt(sub, s, j);
    }
  }

  /** An occurrence survives putting any prefix in front of the string. */
  lemma OccursUnderPrefix(sub: string, prefix: string, s: string)
    requires Occurs(sub, s)
    ensures Occurs(sub, prefix + s)
  {
    var i: nat :| i <= |s| && OccursAt(sub, s, i);
    assert (prefix + s)[|prefix| + i..|prefix| + i + |sub|] == s[i..i + |sub|];
    assert OccursAt(sub, prefix + s, |prefix| + i);
  }

  /** Index of the first character of `s` that is in `stops`, or `|s|` when
      there is none (where Python's `str.find` would answer -1). */
  function FirstOf(s: string, stops: set<char>): (i: nat)
    ensures i <= |s|
    ensures i < |s| ==> s[i] in stops
    ensures forall j :: 0 <= j < i ==> s[j] !in stops
  {
    if |s| == 0 then 0
    else if s[0] in stops then 0
    else 1 + FirstOf(s[1..], stops)
  }

  predicate IsAsciiLetter(c: char) {
    'a' <= c <= 'z' || 'A' <= c <= 'Z'
  }

  /** The characters `urlsplit` admits in a scheme. */
  predicate IsSchemeChar(c: char) {
    IsAsciiLetter(c) || '0' <= c <= '9' || c == '+' || c == '-' || c == '.'
  }

  /** Every character of `s` is a scheme character. */
  predicate AllSchemeChars(s: string)
    ensures AllSchemeChars(s) <==> forall j :: 0 <= j < |s| ==> IsSchemeChar(s[j])
  {
    s == [] || (IsSchemeChar(s[0]) && AllSchemeChars(s[1..]))
  }

  /** A scheme `urlsplit` accepts: an ASCII letter, then scheme characters. */
  predicate ValidScheme(s: string) {
    |s| > 0 && IsAsciiLetter(s[0]) && AllSchemeChars(s)
  }

  /** ASCII lower-casing, as `str.lower` acts on a scheme. */
  function LowerChar(c: char): char {
    if 'A' <= c <= 'Z' then (c as int + 32) as char else c
  }

  function Lower(s: string): string {
    if s == [] then [] else [LowerChar(s[0])] + Lower(s[1..])
  }

  /** The delimiters that end a netloc. */
  const NetlocStops: set<char> := {'/', '?', '#'}

  /** Whether the text before the first ':' of `url` is a scheme by
      `urlsplit`'s rule: non-empty, starting with an ASCII letter, made of
      scheme characters only. */
  predicate HasScheme(url: Url) {
    var i := FirstOf(url, {':'});
    0 < i < |url| && IsAsciiLetter(url[0]) && forall j :: 0 <= j < i ==> IsSchemeChar(url[j])
  }

  /** The lower-cased scheme, or "" when there is none. */
  function Scheme(url: Url): string {
    if HasScheme(url) then Lower(url[..FirstOf(url, {':'})]) else ""
  }

  /** What follows the scheme and its ':' (the whole URL when there is no scheme). */
  function AfterScheme(url: Url): string {
    if HasScheme(url) then url[FirstOf(url, {':'}) + 1..] else url
  }

  /** The netloc of a scheme-less remainder: after a leading "//", up to the
      first '/', '?' or '#'; empty when the remainder does not start with "//". */
  function Netloc(rest: string): (n: string)
    ensures forall j :: 0 <= j < |n| ==> n[j] !in NetlocStops
  {
    if StartsWith(rest, "//") then rest[2..2 + FirstOf(rest[2..], NetlocStops)] else ""
  }

  /** `get_base_url`: `scheme://netloc` of a page URL. */
  function BaseUrl(url: Url): string {
    Scheme(url) + "://" + Netloc(AfterScheme(url))
  }

  /** Root-relative hrefs (those starting with '/') are prefixed with the
      page's origin; every other href is kept as written. */
  function Normalize(page: Url, href: string): (u: Url)
    ensures u == href <==> !StartsWith(href, "/")
  {
    if StartsWith(href, "/") then BaseUrl(page) + href else href
  }

  /** A prefix free of stop characters shifts the first stop by its length. */
  lemma {:induction false} FirstOfAfter(a: string, b: string, stops: set<char>)
    requires forall j :: 0 <= j < |a| ==> a[j] !in stops
    ensures FirstOf(a + b, stops) == |a| + FirstOf(b, stops)
  {
    if a == [] {
      assert a + b == b;
    } else {
      assert (a + b)[0] == a[0];
      assert (a + b)[1..] == a[1..] + b;
      FirstOfAfter(a[1..], b, stops);
    }
  }

  /** The first ':' of `scheme:rest` ends a valid scheme. */
  lemma SchemeColon(scheme: string, rest: string)
    requires AllSchemeChars(scheme)
    ensures FirstOf(scheme + ":" + rest, {':'}) == |scheme|
  {
    assert scheme + ":" + rest == scheme + (":" + rest);
    FirstOfAfter(scheme, ":" + rest, {':'});
  }

  /** A valid scheme before the first ':' is recognised as one. */
  lemma SchemeDetected(scheme: string, rest: string)
    requires ValidScheme(scheme)
    ensures HasScheme(scheme + ":" + rest)
  {
    var url := scheme + ":" + rest;
    SchemeColon(scheme, rest);
    assert forall j :: 0 <= j < |scheme| ==> url[j] == scheme[j];
  }

  /** The scheme and remainder of `scheme:rest` for a valid scheme. */
  lemma SchemeOf(scheme: string, rest: string)
    requires ValidScheme(scheme)
    ensures Scheme(scheme + ":" + rest) == Lower(scheme)
    ensures AfterScheme(scheme + ":" + rest) == rest
  {
    var url := scheme + ":" + rest;
    SchemeColon(scheme, rest);
    SchemeDetected(scheme, rest);
    assert url[..|scheme|] == scheme;
    assert url[|scheme| + 1..] == rest;
  }

  /** The netloc of `//host` followed by a path, query or fragment is `host`. */
  lemma NetlocOf(host: string, path: string)
    requires FirstOf(host, NetlocStops) == |host|
    requires FirstOf(path, NetlocStops) == 0
    ensures Netloc("//" + host + path) == host
  {
    var rest := "//" + host + path;
    assert StartsWith(rest, "//");
    assert rest[2..] == host + path;
    assert FirstOf(host + path, NetlocStops) == |host| by {
      FirstOfAfter(host, path, NetlocStops);
    }
    assert rest[2..2 + |host|] == host;
  }

  /** `scheme:` followed by `//host…` spells `scheme://host…`. */
  lemma RegroupAbsolute(scheme: string, host: string, path: string)
    ensures scheme + ":" + ("//" + host + path) == scheme + "://" + host + path
  {
  }

  /** A well-formed absolute page URL `scheme://host` followed by a path,
      query or fragment has origin `scheme://host`, the scheme lower-cased. */
  lemma BaseUrlOfAbsolute(scheme: string, host: string, path: string)
    requires ValidScheme(scheme)
    requires FirstOf(host, NetlocStops) == |host|
    requires FirstOf(path, NetlocStops) == 0
    ensures BaseUrl(scheme + "://" + host + path) == Lower(scheme) + "://" + host
  {
    var rest := "//" + host + path;
    var url := scheme + ":" + rest;
    RegroupAbsolute(scheme, host, path);
    SchemeOf(scheme, rest);
    NetlocOf(host, path);
    calc {
      BaseUrl(url);
      Scheme(url) + "://" + Netloc(AfterScheme(url));
      Lower(scheme) + "://" + Netloc(rest);
      Lower(scheme) + "://" + host;
    }
  }

  /** Root-relative normalisation on a well-formed page URL joins the
      page's `scheme://host` to the href. */
  lemma NormalizeRootRelative(scheme: string, host: string, path: string, href: string)
    requires ValidScheme(scheme)
    requires FirstOf(host, NetlocStops) == |host|
    requires FirstOf(path, NetlocStops) == 0
    requires StartsWith(href, "/")
    ensures Normalize(scheme + "://" + host + path, href) == Lower(scheme) + "://" + host + href
  {
    BaseUrlOfAbsolute(scheme, host, path);
  }
}
