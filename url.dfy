/**
 * URL identity shared by `Page` and `Site`: `sanitizeUrl`, a simple
 * splitter standing in for PHP's `parse_url`, and the string `getUrl`
 * builds from the parsed pieces. That string is the de-duplication key of
 * every pool.
 */
module Url {
  import opened Php

  /** The pieces `parse_url` may yield; `None` is an unset array key. */
  datatype UrlParts = UrlParts(
    scheme: Option<string>,
    host: Option<string>,
    port: Option<string>,
    user: Option<string>,
    pass: Option<string>,
    path: Option<string>,
    query: Option<string>,
    fragment: Option<string>)

  /**
   * Splits `s` at the first `c`: the text before it, and the text after it
   * when `c` occurs at all. The contract determines the split uniquely.
   */
  function Cut(s: string, c: char): (r: (string, Option<string>))
    ensures c !in r.0
    ensures r.1.None? ==> r.0 == s
    ensures r.1.Some? ==> s == r.0 + [c] + r.1.value
  {
    if s == [] then ([], None)
    else if s[0] == c then ([], Some(s[1..]))
    else
      var (before, after) := Cut(s[1..], c);
      ([s[0]] + before, after)
  }

  /** Any split of `s` at a first `c` is the one `Cut` computes. */
  lemma {:induction false} CutAt(before: string, c: char, after: string)
    requires c !in before
    ensures Cut(before + [c] + after, c) == (before, Some(after))
  {
    var s := before + [c] + after;
    if before == [] {
      assert s[0] == c && s[1..] == after;
    } else {
      assert s[0] == before[0] != c;
      assert s[1..] == before[1..] + [c] + after;
      CutAt(before[1..], c, after);
      assert [before[0]] + before[1..] == before;
    }
  }

  /** Prefixing text without `c` leaves the split point where it was. */
  lemma CutPrefixed(p: string, s: string, c: char)
    requires c !in p
    ensures Cut(p + s, c).0 == p + Cut(s, c).0
    ensures Cut(p + s, c).1 == Cut(s, c).1
  {
    var (before, after) := Cut(s, c);
    if after.Some? {
      assert p + s == (p + before) + [c] + after.value;
      CutAt(p + before, c, after.value);
    } else {
      assert c !in p + s;
    }
  }

  function NonEmpty(s: string): (r: Option<string>)
    ensures r.None? <==> s == ""
  {
    if s == "" then None else Some(s)
  }

  predicate IsLetter(ch: char) {
    'a' <= ch <= 'z' || 'A' <= ch <= 'Z'
  }

  predicate IsDigit(ch: char) {
    '0' <= ch <= '9'
  }

  /** A URL scheme: a letter followed by letters, digits, `+`, `-` or `.`. */
  predicate IsSchemeWord(w: string) {
    |w| > 0 && IsLetter(w[0]) &&
    forall i :: 0 <= i < |w| ==> IsLetter(w[i]) || IsDigit(w[i]) || w[i] in "+-."
  }

  /**
   * Takes a leading `scheme:` off `s`. The word before the first `:` is a
   * scheme when it is a scheme word and no digit follows the colon (a digit
   * makes it a `host:port`).
   */
  function SplitScheme(s: string): (r: (Option<string>, string))
    ensures r.0.None? ==> r.1 == s
    ensures r.0.Some? ==> IsSchemeWord(r.0.value) && s == r.0.value + ":" + r.1
  {
    var (before, after) := Cut(s, ':');
    if after.Some? && IsSchemeWord(before) && !(|after.value| > 0 && IsDigit(after.value[0]))
    then (Some(before), after.value)
    else (None, s)
  }

  /**
   * The simple splitter standing in for `parse_url`: fragment after the
   * first `#`, query after the first `?`, then an optional scheme, then,
   * when `//` follows, an authority `user:pass@host:port` up to the first
   * `/`, and the rest is the path. Empty hosts and paths are unset.
   */
  function ParseUrl(s: string): (r: UrlParts)
    ensures r.host.Some? ==> r.host.value != ""
  {
    var (beforeFragment, fragment) := Cut(s, '#');
    var (beforeQuery, query) := Cut(beforeFragment, '?');
    var (scheme, rest) := SplitScheme(beforeQuery);
    ParseHierarchy(rest).(scheme := scheme, query := query, fragment := fragment)
  }

  /**
   * The part of a URL after its scheme and before its query: an authority
   * when it starts with `//`, otherwise a bare path.
   */
  function ParseHierarchy(rest: string): (r: UrlParts)
    ensures r.host.Some? ==> r.host.value != ""
  {
    if |rest| >= 2 && rest[..2] == "//" then
      var (authority, pathAfterSlash) := Cut(rest[2..], '/');
      var (userInfo, hostAfterAt) := Cut(authority, '@');
      var hostPort := if hostAfterAt.Some? then hostAfterAt.value else authority;
      var (user, pass) :=
        if hostAfterAt.Some? then (var (u, p) := Cut(userInfo, ':'); (Some(u), p)) else (None, None);
      var (host, port) := Cut(hostPort, ':');
      var path := if pathAfterSlash.Some? then Some("/" + pathAfterSlash.value) else None;
      UrlParts(None, NonEmpty(host), port, user, pass, path, None, None)
    else
      UrlParts(None, None, None, None, None, NonEmpty(rest), None, None)
  }

  /**
   * `sanitizeUrl`: a URL without `//` is taken for a bare host and gets
   * `//` in front, so that `parse_url` finds its host.
   */
  function SanitizeUrl(url: string): (r: string)
    ensures Contains(r, "//")
    ensures r == url <==> Contains(url, "//")
    ensures r == url || r == "//" + url
  {
    if StrPos(url, "//").None? then
      assert OccursAt("//" + url, "//", 0);
      "//" + url
    else url
  }

  /** `sanitizeUrl` is idempotent. */
  lemma SanitizeIdempotent(url: string)
    ensures SanitizeUrl(SanitizeUrl(url)) == SanitizeUrl(url)
  {
  }

  /**
   * The string `getUrl(full)` builds: `//`, the host, with `full` the
   * `:port` when a port is set, the path, and `?query` when a query is set.
   * No credentials appear: the source's guard tests a property that is
   * never assigned.
   */
  function Render(host: Option<string>, port: Option<string>, path: string, query: Option<string>, full: bool): (r: string)
    ensures |r| >= 2 + |OrEmpty(host)| && r[..2 + |OrEmpty(host)|] == "//" + OrEmpty(host)
  {
    "//" + OrEmpty(host)
    + (if full && port.Some? then ":" + port.value else "")
    + path
    + (if query.Some? then "?" + query.value else "")
  }

  /**
   * On renderable fields the string `getUrl(full)` builds parses back to
   * exactly the host, the port when `full` shows it, the path and the query.
   */
  lemma RenderParsesBack(host: Option<string>, port: Option<string>, path: string, query: Option<string>, full: bool)
    requires Renderable(host, port, path, query)
    ensures ParseUrl(Render(host, port, path, query, full)) ==
              UrlParts(None, host, if full then port else None, None, None, Some(path), query, None)
  {
    ParseRendered(host, if full then port else None, path, query);
    assert Render(host, port, path, query, full) ==
           "//" + OrEmpty(host) + PortText(if full then port else None) + path + QueryText(query);
  }

  /** `:port` when a port is shown. */
  function PortText(port: Option<string>): string {
    if port.Some? then ":" + port.value else ""
  }

  /** `?query` when a query is set. */
  function QueryText(query: Option<string>): string {
    if query.Some? then "?" + query.value else ""
  }

  /**
   * Fields that `getUrl` writes out unambiguously: a bare host, a port
   * without a character that ends an authority, a path that starts with
   * `/` and has no query or fragment in it, and a query without a fragment.
   */
  predicate Renderable(host: Option<string>, port: Option<string>, path: string, query: Option<string>) {
    && host.Some? && IsBareHost(host.value)
    && (port.Some? ==> '/' !in port.value && '?' !in port.value && '#' !in port.value && '@' !in port.value)
    && |path| > 0 && path[0] == '/' && '?' !in path && '#' !in path
    && (query.Some? ==> '#' !in query.value)
  }

  /** The splitter undoes the rendering of renderable fields. */
  lemma ParseRendered(host: Option<string>, port: Option<string>, path: string, query: Option<string>)
    ensures Renderable(host, port, path, query) ==>
              ParseUrl("//" + OrEmpty(host) + PortText(port) + path + QueryText(query)) ==
              UrlParts(None, host, port, None, None, Some(path), query, None)
  {
    if Renderable(host, port, path, query) {
      var pre := "//" + host.value + PortText(port) + path;
      RenderedHierarchy(host.value, port, path);
      RenderedAuthority(host.value, port);
      assert '#' !in pre && '?' !in pre;
      SplitQuery(pre, query);
      NoScheme(pre);
    }
  }

  /** Text without `#` or `?`, then `?query`: no fragment, and the query after the first `?`. */
  lemma SplitQuery(pre: string, query: Option<string>)
    requires '#' !in pre && '?' !in pre && (query.Some? ==> '#' !in query.value)
    ensures Cut(pre + QueryText(query), '#') == (pre + QueryText(query), None)
    ensures Cut(pre + QueryText(query), '?') == (pre, query)
  {
    var s := pre + QueryText(query);
    assert '#' !in s;
    if query.Some? {
      assert s == pre + ['?'] + query.value;
      CutAt(pre, '?', query.value);
    } else {
      assert s == pre;
    }
  }

  /** A query appended behind the first `?` changes nothing but the query. */
  lemma ParseDropsQuery(p: string, q: string)
    requires '?' !in p && '#' !in p && '#' !in q
    ensures ParseUrl(p + "?" + q) == ParseUrl(p).(query := Some(q))
  {
    var s := p + "?" + q;
    assert '#' !in s;
    assert Cut(s, '#') == (s, None);
    assert Cut(p, '#') == (p, None);
    CutAt(p, '?', q);
    assert Cut(p, '?') == (p, None);
  }

  /** Text that starts with `/` has no scheme. */
  lemma NoScheme(pre: string)
    requires |pre| > 0 && pre[0] == '/'
    ensures SplitScheme(pre) == (None, pre)
  {
    var (b, a) := Cut(pre, ':');
    if a.Some? {
      assert b[0] == pre[0] == '/';
    }
  }

  /** `//host:port/path` splits back into its host, port and path. */
  lemma RenderedHierarchy(h: string, port: Option<string>, path: string)
    requires Renderable(Some(h), port, path, None)
    ensures ParseHierarchy("//" + h + PortText(port) + path) == UrlParts(None, Some(h), port, None, None, Some(path), None, None)
  {
    var authority := h + PortText(port);
    assert "//" + h + PortText(port) + path == "//" + authority + path;
    RenderedAuthority(h, port);
    AfterSlashes(authority, path);
    CutAt(authority, '/', path[1..]);
  }

  /** Behind the leading `//` come the authority, a `/` and the rest of the path. */
  lemma AfterSlashes(authority: string, path: string)
    requires |path| > 0 && path[0] == '/'
    ensures |"//" + authority + path| >= 2 && ("//" + authority + path)[..2] == "//"
    ensures ("//" + authority + path)[2..] == authority + ['/'] + path[1..]
    ensures "/" + path[1..] == path
  {
    assert ("//" + authority + path)[2..] == authority + path;
    assert path == ['/'] + path[1..];
  }

  /** `host:port` has no `/`, `?`, `#` or `@`, and splits at its first `:`. */
  lemma RenderedAuthority(h: string, port: Option<string>)
    requires Renderable(Some(h), port, "/", None)
    ensures '/' !in h + PortText(port) && '?' !in h + PortText(port) && '#' !in h + PortText(port)
    ensures Cut(h + PortText(port), '@') == (h + PortText(port), None)
    ensures Cut(h + PortText(port), ':') == (h, port)
  {
    NoSlashesInBareHost(h);
    var authority := h + PortText(port);
    assert '@' !in authority;
    if port.Some? {
      assert authority == h + [':'] + port.value;
      CutAt(h, ':', port.value);
    } else {
      assert authority == h;
    }
  }

  /**
   * On renderable fields the identity string is one-to-one: two objects
   * with the same `getUrl()` have the same host, port, path and query.
   */
  lemma IdentityDeterminesFields(host1: Option<string>, port1: Option<string>, path1: string, query1: Option<string>,
                                 host2: Option<string>, port2: Option<string>, path2: string, query2: Option<string>)
    requires Renderable(host1, port1, path1, query1) && Renderable(host2, port2, path2, query2)
    requires Render(host1, port1, path1, query1, true) == Render(host2, port2, path2, query2, true)
    ensures host1 == host2 && port1 == port2 && path1 == path2 && query1 == query2
  {
    RenderParsesBack(host1, port1, path1, query1, true);
    RenderParsesBack(host2, port2, path2, query2, true);
  }

  /** The pieces `setUrl` stores for `url`. */
  function PartsOf(url: string): UrlParts {
    ParseUrl(SanitizeUrl(url))
  }

  /** The path `setUrl` stores: the parsed path, or `/` when there is none. */
  function PathOf(url: string): (r: string)
    ensures r != ""
  {
    OrElse(PartsOf(url).path, "/")
  }

  /** Whenever the URL has a host, the stored path starts with `/`. */
  lemma PathOfStartsWithSlash(url: string)
    requires PartsOf(url).host.Some?
    ensures PathOf(url)[0] == '/'
  {
  }

  /** What `getUrl(full)` returns for an object built from `url`. */
  function CanonicalUrl(url: string, full: bool): (r: string)
    ensures |r| >= 3 && r[..2] == "//"
  {
    var p := PartsOf(url);
    Render(p.host, p.port, PathOf(url), p.query, full)
  }

  lemma RenderPortLength(host: Option<string>, port: Option<string>, path: string, query: Option<string>)
    ensures |Render(host, port, path, query, true)| ==
            |Render(host, port, path, query, false)| + (if port.Some? then 1 + |port.value| else 0)
  {
  }

  /** Apart from the port, `getUrl(false)` and `getUrl(true)` agree. */
  lemma PortOnlyDifference(url: string)
    ensures PartsOf(url).port.None? <==> CanonicalUrl(url, true) == CanonicalUrl(url, false)
  {
    var p := PartsOf(url);
    RenderPortLength(p.host, p.port, PathOf(url), p.query);
  }

  /** Scheme, credentials and fragment play no part in the identity. */
  lemma IdentityIgnoresSchemeCredentialsFragment(a: string, b: string, full: bool)
    requires PartsOf(a).host == PartsOf(b).host && PartsOf(a).port == PartsOf(b).port
    requires PartsOf(a).path == PartsOf(b).path && PartsOf(a).query == PartsOf(b).query
    ensures CanonicalUrl(a, full) == CanonicalUrl(b, full)
  {
  }

  lemma ContainsAt(s: string, needle: string, j: nat)
    requires OccursAt(s, needle, j)
    ensures Contains(s, needle)
  {
  }

  /** `parse_url` of `w://s` is `parse_url` of `//s` with scheme `w`. */
  lemma {:induction false} ParseWithScheme(w: string, s: string)
    requires IsSchemeWord(w)
    ensures ParseUrl(w + "://" + s) == ParseUrl("//" + s).(scheme := Some(w))
  {
    var p := w + ":";
    assert '#' !in p && '?' !in p && ':' !in w by {
      assert forall i :: 0 <= i < |w| ==> w[i] != '#' && w[i] != '?' && w[i] != ':';
    }
    assert w + "://" + s == p + ("//" + s);
    CutPrefixed(p, "//" + s, '#');
    CutPrefixed("//", s, '#');
    var (f1, fragment) := Cut("//" + s, '#');
    assert f1 == "//" + Cut(s, '#').0;
    CutPrefixed(p, f1, '?');
    CutPrefixed("//", Cut(s, '#').0, '?');
    var (q1, query) := Cut(f1, '?');
    assert q1[..2] == "//";
    // with the scheme in front, the first ':' ends the scheme word
    CutAt(w, ':', q1);
    assert SplitScheme(p + q1) == (Some(w), q1);
    // without it, the text before the first ':' starts with '/', no scheme word
    var (b, a) := Cut(q1, ':');
    if a.Some? {
      assert b[0] == q1[0] == '/';
      assert !IsSchemeWord(b);
    }
    assert SplitScheme(q1) == (None, q1);
  }

  /** A URL with a scheme in front maps to the same identity as without it. */
  lemma SchemeInsensitive(w: string, s: string, full: bool)
    requires IsSchemeWord(w)
    ensures CanonicalUrl(w + "://" + s, full) == CanonicalUrl("//" + s, full)
  {
    assert OccursAt(w + "://" + s, "//", |w| + 1);
    ContainsAt(w + "://" + s, "//", |w| + 1);
    assert OccursAt("//" + s, "//", 0);
    ContainsAt("//" + s, "//", 0);
    ParseWithScheme(w, s);
  }

  /**
   * A scheme-less URL such as `www.example.com/path` and the same URL behind
   * a scheme, `http://www.example.com/path`, have one identity.
   */
  lemma SchemelessMatchesScheme(w: string, s: string, full: bool)
    requires IsSchemeWord(w)
    requires !Contains(s, "//")
    ensures CanonicalUrl(s, full) == CanonicalUrl(w + "://" + s, full)
  {
    SchemeInsensitive(w, s, full);
  }

  /** A bare host has no character that ends or splits an authority. */
  predicate IsBareHost(h: string) {
    |h| > 0 && forall i :: 0 <= i < |h| ==> h[i] !in "/?#@:"
  }

  lemma NoSlashesInBareHost(h: string)
    requires IsBareHost(h)
    ensures '/' !in h && '?' !in h && '#' !in h && '@' !in h && ':' !in h
    ensures !Contains(h, "//") && !Contains(h + "/", "//")
  {
    assert forall i :: 0 <= i < |h| ==> h[i] != '/' && h[i] != '?' && h[i] != '#' && h[i] != '@' && h[i] != ':';
    forall j: nat ensures !OccursAt(h, "//", j) {
      if j + 2 <= |h| {
        assert h[j..j + 2][0] == h[j] != '/';
      }
    }
    forall j: nat ensures !OccursAt(h + "/", "//", j) {
      if j + 2 <= |h| + 1 {
        assert j < |h| && (h + "/")[j] == h[j];
        assert (h + "/")[j..j + 2][0] == h[j] != '/';
      }
    }
  }

  lemma PartsOfBareHost(h: string)
    requires IsBareHost(h)
    ensures PartsOf(h) == UrlParts(None, Some(h), None, None, None, None, None, None)
  {
    NoSlashesInBareHost(h);
    var s := "//" + h;
    assert SanitizeUrl(h) == s;
    assert '#' !in s && '?' !in s && ':' !in s;
    assert Cut(s, '#') == (s, None);
    assert Cut(s, '?') == (s, None);
    assert SplitScheme(s) == (None, s);
    assert s[2..] == h;
    assert Cut(h, '/') == (h, None);
    assert Cut(h, '@') == (h, None);
    assert Cut(h, ':') == (h, None);
  }

  lemma PartsOfBareHostSlash(h: string)
    requires IsBareHost(h)
    ensures PartsOf(h + "/") == UrlParts(None, Some(h), None, None, None, Some("/"), None, None)
  {
    NoSlashesInBareHost(h);
    var t := "//" + h + "/";
    assert SanitizeUrl(h + "/") == t;
    assert '#' !in t && '?' !in t && ':' !in t;
    assert Cut(t, '#') == (t, None);
    assert Cut(t, '?') == (t, None);
    assert SplitScheme(t) == (None, t);
    assert t[2..] == h + "/" == h + ['/'] + "";
    CutAt(h, '/', "");
    assert Cut(t[2..], '/') == (h, Some(""));
    assert Cut(h, '@') == (h, None);
    assert Cut(h, ':') == (h, None);
    assert "/" + "" == "/";
    var r := ParseUrl(t);
    assert r.scheme == None;
    assert r.host == Some(h);
    assert r.port == None;
    assert r.user == None;
    assert r.path == Some("/");
  }

  /**
   * A bare host gets the default path `/`, so `example.com` and
   * `example.com/` have one identity.
   */
  lemma BareHostDefaultPath(h: string, full: bool)
    requires IsBareHost(h)
    ensures CanonicalUrl(h, full) == "//" + h + "/"
    ensures CanonicalUrl(h + "/", full) == "//" + h + "/"
  {
    PartsOfBareHost(h);
    PartsOfBareHostSlash(h);
    assert CanonicalUrl(h, full) == Render(Some(h), None, "/", None, full);
    assert CanonicalUrl(h + "/", full) == Render(Some(h), None, "/", None, full);
  }
}
