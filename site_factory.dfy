/**
 * `SiteFactory`: the get-or-create pool of sites, keyed by `getUrl()`, in
 * insertion order; `newSite` also records where the site was detected.
 */
module SiteFactories {
  import Url
  import opened Sites

  class SiteFactory {
    /** Every site handed out so far, in the order they were created. */
    var sites: seq<Site>

    /** No two pooled sites have the same `getUrl()`. */
    ghost predicate Valid()
      reads this`sites, sites`host, sites`port, sites`path, sites`query
    {
      DistinctUrls(sites)
    }

    constructor ()
      ensures sites == [] && Valid()
    {
      sites := [];
    }

    /**
     * `newSite(url, detected_on)`: the pooled site with the identity of
     * `new Site(url)`, or a new site appended to the pool; then, when
     * `detectedOn` is given, it is added to that site's `detectedOn` list,
     * subject to the list's own de-duplication.
     */
    method NewSite(url: string, detectedOn: Site?) returns (site: Site)
      requires Valid()
      modifies this`sites, sites`detectedOn
      ensures Valid()
      ensures site in sites && site.GetUrl(true) == Url.CanonicalUrl(url, true)
      ensures old(KnownUrl(sites, Url.CanonicalUrl(url, true))) ==> sites == old(sites) && !fresh(site)
      ensures !old(KnownUrl(sites, Url.CanonicalUrl(url, true))) ==> sites == old(sites) + [site] && fresh(site)
      ensures !old(KnownUrl(sites, Url.CanonicalUrl(url, true))) ==>
                site.detectedOn == if detectedOn == null then [] else [detectedOn]
      ensures old(KnownUrl(sites, Url.CanonicalUrl(url, true))) && detectedOn == null ==>
                site.detectedOn == old(site.detectedOn)
      ensures old(KnownUrl(sites, Url.CanonicalUrl(url, true))) && detectedOn != null ==>
                site.detectedOn == if KnownUrl(old(site.detectedOn), detectedOn.GetUrl(true))
                                   then old(site.detectedOn) else old(site.detectedOn) + [detectedOn]
      ensures old(KnownUrl(sites, Url.CanonicalUrl(url, true))) && old(site.Valid()) ==> site.Valid()
      ensures forall s :: s in old(sites) && s != site ==> s.detectedOn == old(s.detectedOn)
    {
      site := PooledSite(url);
      Detect(site, detectedOn);
    }

    /**
     * The second half of `newSite`: a given `detected_on` site is added to
     * the list of `site`, subject to the list's own de-duplication.
     */
    method Detect(site: Site, detectedOn: Site?)
      requires Valid() && site in sites
      modifies site`detectedOn
      ensures Valid()
      ensures detectedOn == null ==> site.detectedOn == old(site.detectedOn)
      ensures detectedOn != null ==>
                site.detectedOn == if KnownUrl(old(site.detectedOn), detectedOn.GetUrl(true))
                                   then old(site.detectedOn) else old(site.detectedOn) + [detectedOn]
      ensures old(site.Valid()) ==> site.Valid()
    {
      if detectedOn != null {
        site.AddDetectedOn(detectedOn);
      }
    }

    /** The first half of `newSite`: look the site up, create it on a miss. */
    method PooledSite(url: string) returns (site: Site)
      requires Valid()
      modifies this`sites
      ensures Valid()
      ensures site in sites && site.GetUrl(true) == Url.CanonicalUrl(url, true)
      ensures sites == old(sites) || sites == old(sites) + [site]
      ensures old(KnownUrl(sites, Url.CanonicalUrl(url, true))) ==> sites == old(sites) && !fresh(site)
      ensures !old(KnownUrl(sites, Url.CanonicalUrl(url, true))) ==>
                sites == old(sites) + [site] && fresh(site) && site.detectedOn == []
    {
      var existing := SiteExists(url);
      if existing == null {
        site := new Site(url);
        AddSite(site);
        assert sites[|sites| - 1] == site;
        forall i, j | 0 <= i < j < |sites| ensures sites[i].GetUrl(true) != sites[j].GetUrl(true) {
          if j == |sites| - 1 {
            assert sites[i] == old(sites)[i];
          }
        }
      } else {
        site := existing;
      }
    }

    /**
     * `siteExists(url)`: the first pooled site whose `getUrl()` equals that
     * of `new Site(url)`, or `null` (the source's `false`) when there is none.
     * It reads the pool and changes nothing.
     */
    method SiteExists(url: string) returns (found: Site?)
      ensures found == null <==> !KnownUrl(sites, Url.CanonicalUrl(url, true))
      ensures found != null ==>
                exists i :: 0 <= i < |sites| && sites[i] == found
                            && found.GetUrl(true) == Url.CanonicalUrl(url, true)
                            && !KnownUrl(sites[..i], Url.CanonicalUrl(url, true))
    {
      var tempSite := new Site(url);
      found := FirstWithUrl(tempSite.GetUrl(true));
    }

    /** The scan of `siteExists`, for a key already computed. */
    method FirstWithUrl(key: string) returns (found: Site?)
      ensures found == null <==> !KnownUrl(sites, key)
      ensures found != null ==>
                exists i :: 0 <= i < |sites| && sites[i] == found && found.GetUrl(true) == key && !KnownUrl(sites[..i], key)
    {
      var i := 0;
      while i < |sites|
        invariant 0 <= i <= |sites|
        invariant forall j :: 0 <= j < i ==> sites[j].GetUrl(true) != key
      {
        if sites[i].GetUrl(true) == key {
          found := sites[i];
          assert !KnownUrl(sites[..i], key) by {
            assert forall j :: 0 <= j < i ==> sites[..i][j] == sites[j];
          }
          return;
        }
        i := i + 1;
      }
      return null;
    }

    /** `addSite`: appends without any check. */
    method AddSite(site: Site)
      modifies this`sites
      ensures sites == old(sites) + [site]
    {
      sites := sites + [site];
    }

    /** `getSites`: the pool in insertion order. */
    function GetSites(): seq<Site>
      reads this`sites
    {
      sites
    }
  }

  /**
   * Asking twice for the same URL yields the same instance, and the pool
   * grows by at most one site.
   */
  method NewSiteTwice(factory: SiteFactory, url: string) returns (first: Site, second: Site)
    requires factory.Valid()
    modifies factory`sites, factory.sites`detectedOn
    ensures factory.Valid()
    ensures first == second
    ensures |old(factory.sites)| <= |factory.sites| <= |old(factory.sites)| + 1
  {
    ghost var key := Url.CanonicalUrl(url, true);
    first := factory.NewSite(url, null);
    ghost var i :| 0 <= i < |factory.sites| && factory.sites[i] == first;
    assert KnownUrl(factory.sites, key);
    ghost var pool := factory.sites;
    second := factory.NewSite(url, null);
    assert factory.sites == pool;
    ghost var j :| 0 <= j < |factory.sites| && factory.sites[j] == second;
    assert factory.sites[i].GetUrl(true) == key == factory.sites[j].GetUrl(true);
    assert i == j;
  }
}
