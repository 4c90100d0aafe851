/**
 * `Site`: a URL with the list of sites it was detected on. Entries of that
 * list are told apart by their `getUrl()` string, not by object identity.
 */
module Sites {
  import opened Php
  import Url

  class Site {
    var scheme: Option<string>
    var host: Option<string>
    var port: Option<string>
    var user: Option<string>
    var password: Option<string>
    var path: string
    var query: Option<string>
    var fragment: Option<string>
    /** The sites this site has been found on, in the order they were added. */
    var detectedOn: seq<Site>

    /** The URL fields hold what `setUrl(url)` stores. */
    ghost predicate HoldsUrl(url: string)
      reads this
    {
      var p := Url.PartsOf(url);
      && scheme == p.scheme && host == p.host && port == p.port
      && user == p.user && password == None
      && path == Url.PathOf(url) && query == p.query && fragment == p.fragment
    }

    /** No two entries of `detectedOn` have the same URL. */
    ghost predicate Valid()
      reads this`detectedOn, detectedOn`host, detectedOn`port, detectedOn`path, detectedOn`query
    {
      DistinctUrls(detectedOn)
    }

    constructor (url: string)
      ensures HoldsUrl(url) && Valid()
      ensures GetUrl(true) == Url.CanonicalUrl(url, true)
      ensures GetUrl(false) == Url.CanonicalUrl(url, false)
      ensures detectedOn == []
    {
      detectedOn := [];
      new;
      SetUrl(url);
      assert detectedOn == [];
    }

    /** Splits the sanitized URL into the fields; the path defaults to `/`. */
    method SetUrl(url: string)
      modifies this`scheme, this`host, this`port, this`user, this`password, this`path, this`query, this`fragment
      ensures HoldsUrl(url)
      ensures GetUrl(true) == Url.CanonicalUrl(url, true)
      ensures GetUrl(false) == Url.CanonicalUrl(url, false)
    {
      var sanitized := Url.SanitizeUrl(url);
      var parsed := Url.ParseUrl(sanitized);
      scheme := parsed.scheme;
      host := parsed.host;
      port := parsed.port;
      user := parsed.user;
      // `setUrl` reads the key `password`, which `parse_url` never sets (it uses `pass`)
      password := None;
      path := OrElse(parsed.path, "/");
      query := parsed.query;
      fragment := parsed.fragment;
    }

    /** `getUrl(full)`; `getUrl()` is `GetUrl(true)`. */
    function GetUrl(full: bool): (r: string)
      reads this`host, this`port, this`path, this`query
      ensures |r| >= 2 + |OrEmpty(host)| && r[..2 + |OrEmpty(host)|] == "//" + OrEmpty(host)
      ensures !full ==> r == Url.Render(host, None, path, query, true)
    {
      Url.Render(host, port, path, query, full)
    }

    /** `__toString`. */
    function ToString(): string
      reads this`host, this`port, this`path, this`query
    {
      GetUrl(true)
    }

    /**
     * Appends `site` unless an entry with the same `getUrl()` is already
     * there, scanning the list as the source does.
     */
    method AddDetectedOn(site: Site)
      modifies this`detectedOn
      ensures KnownUrl(old(detectedOn), site.GetUrl(true)) ==> detectedOn == old(detectedOn)
      ensures !KnownUrl(old(detectedOn), site.GetUrl(true)) ==> detectedOn == old(detectedOn) + [site]
      ensures KnownUrl(detectedOn, site.GetUrl(true))
      ensures old(Valid()) ==> Valid()
    {
      var testUrl := site.GetUrl(true);
      var i := 0;
      while i < |detectedOn|
        invariant 0 <= i <= |detectedOn|
        invariant !KnownUrl(detectedOn[..i], testUrl)
      {
        if detectedOn[i].GetUrl(true) == testUrl {
          assert detectedOn[..i + 1][i] == detectedOn[i];
          return;
        }
        assert detectedOn[..i + 1] == detectedOn[..i] + [detectedOn[i]];
        i := i + 1;
      }
      assert detectedOn[..i] == detectedOn;
      detectedOn := detectedOn + [site];
      assert detectedOn[|detectedOn| - 1] == site;
    }

    /** `getDetectedOn`: the list in insertion order. */
    function GetDetectedOn(): seq<Site>
      reads this`detectedOn
    {
      detectedOn
    }
  }

  /** Some site in `sites` has `getUrl()` equal to `key`. */
  ghost predicate KnownUrl(sites: seq<Site>, key: string)
    reads sites`host, sites`port, sites`path, sites`query
  {
    exists i :: 0 <= i < |sites| && sites[i].GetUrl(true) == key
  }

  /** The sites in `sites` have pairwise different `getUrl()` strings. */
  ghost predicate DistinctUrls(sites: seq<Site>)
    reads sites`host, sites`port, sites`path, sites`query
  {
    forall i, j :: 0 <= i < j < |sites| ==> sites[i].GetUrl(true) != sites[j].GetUrl(true)
  }
}
