/**
 * `Page`: one page of a site, identified by its `getUrl()` string, with
 * the links found to and from it.
 */
module Pages {
  import opened Php
  import Url
  import opened Links
  import opened Lists

  class Page {
    var scheme: Option<string>
    var host: Option<string>
    var port: Option<string>
    var user: Option<string>
    var password: Option<string>
    var path: string
    var query: Option<string>
    var fragment: Option<string>
    /** Links found on other pages that point at this one. */
    var linkedFrom: seq<Link>
    /** Links found on this page. */
    var linksTo: seq<Link>

    /** The URL fields hold what `setUrl(url)` stores. */
    ghost predicate HoldsUrl(url: string)
      reads this
    {
      var p := Url.PartsOf(url);
      && scheme == p.scheme && host == p.host && port == p.port
      && user == p.user && password == None
      && path == Url.PathOf(url) && query == p.query && fragment == p.fragment
    }

    /** Neither edge list holds a link twice. */
    ghost predicate Valid()
      reads this
    {
      NoDup(linksTo) && NoDup(linkedFrom)
    }

    constructor (url: string)
      ensures HoldsUrl(url) && Valid()
      ensures GetUrl(true) == Url.CanonicalUrl(url, true)
      ensures GetUrl(false) == Url.CanonicalUrl(url, false)
      ensures linkedFrom == [] && linksTo == []
    {
      linkedFrom := [];
      linksTo := [];
      new;
      SetUrl(url);
      assert linkedFrom == [] && linksTo == [];
    }

    /** Splits the sanitized URL into the fields; the path defaults to `/`. */
    method SetUrl(url: string)
      modifies this`scheme, this`host, this`port, this`user, this`password, this`path, this`query, this`fragment
      ensures HoldsUrl(url)
      ensures GetUrl(true) == Url.CanonicalUrl(url, true)
      ensures GetUrl(false) == Url.CanonicalUrl(url, false)
    {
      var sanitized := Url.SanitizeUrl(url);
      var parsed := Url.ParseUrl(sanitized);
      scheme := parsed.scheme;
      host := parsed.host;
      port := parsed.port;
      user := parsed.user;
      // `setUrl` reads the key `password`, which `parse_url` never sets (it uses `pass`)
      password := None;
      path := OrElse(parsed.path, "/");
      query := parsed.query;
      fragment := parsed.fragment;
    }

    /**
     * `getUrl(full)`; `getUrl()` is `GetUrl(true)`. The string starts with
     * `//` and the host; the partial one is the full one without the port.
     */
    function GetUrl(full: bool): (r: string)
      reads this`host, this`port, this`path, this`query
      ensures |r| >= 2 + |OrEmpty(host)| && r[..2 + |OrEmpty(host)|] == "//" + OrEmpty(host)
      ensures !full ==> r == Url.Render(host, None, path, query, true)
    {
      Url.Render(host, port, path, query, full)
    }

    /** `__toString`. */
    function ToString(): string
      reads this`host, this`port, this`path, this`query
    {
      GetUrl(true)
    }

    method AddLinksTo(link: Link)
      modifies this`linksTo
      ensures linksTo == AppendIfAbsent(old(linksTo), link)
      ensures old(Valid()) ==> Valid()
    {
      if link !in linksTo {
        linksTo := linksTo + [link];
      }
    }

    function GetLinksTo(): seq<Link>
      reads this`linksTo
    {
      linksTo
    }

    method AddLinkedFrom(link: Link)
      modifies this`linkedFrom
      ensures linkedFrom == AppendIfAbsent(old(linkedFrom), link)
      ensures old(Valid()) ==> Valid()
    {
      if link !in linkedFrom {
        linkedFrom := linkedFrom + [link];
      }
    }

    function GetLinkedFrom(): seq<Link>
      reads this`linkedFrom
    {
      linkedFrom
    }
  }

  /** Some page in `pages` has `getUrl()` equal to `key`. */
  ghost predicate KnownUrl(pages: seq<Page>, key: string)
    reads pages
  {
    exists i :: 0 <= i < |pages| && pages[i].GetUrl(true) == key
  }

  /** The pages in `pages` have pairwise different `getUrl()` strings. */
  ghost predicate DistinctUrls(pages: seq<Page>)
    reads pages
  {
    forall i, j :: 0 <= i < j < |pages| ==> pages[i].GetUrl(true) != pages[j].GetUrl(true)
  }
}
