/**
 * `PageFactory`: the get-or-create pool of pages, keyed by `getUrl()`, in
 * insertion order.
 */
module PageFactories {
  import Url
  import opened Pages

  class PageFactory {
    /** Every page handed out so far, in the order they were created. */
    var pages: seq<Page>

    /** No two pooled pages have the same `getUrl()`. */
    ghost predicate Valid()
      reads this, pages
    {
      DistinctUrls(pages)
    }

    constructor ()
      ensures pages == [] && Valid()
    {
      pages := [];
    }

    /**
     * `newPage(url, detected_on)`: the pooled page with the identity of
     * `new Page(url)`, or a new page appended to the pool. The second
     * argument is accepted and ignored, as in the source.
     */
    method NewPage(url: string, detectedOn: Page?) returns (page: Page)
      requires Valid()
      modifies this`pages
      ensures Valid()
      ensures page in pages && page.GetUrl(true) == Url.CanonicalUrl(url, true)
      ensures old(KnownUrl(pages, Url.CanonicalUrl(url, true))) ==> pages == old(pages) && !fresh(page)
      ensures !old(KnownUrl(pages, Url.CanonicalUrl(url, true))) ==>
                pages == old(pages) + [page] && fresh(page) && page.linksTo == [] && page.linkedFrom == []
    {
      var existing := PageExists(url);
      if existing == null {
        page := new Page(url);
        AddPage(page);
        assert pages[|pages| - 1] == page;
        forall i, j | 0 <= i < j < |pages| ensures pages[i].GetUrl(true) != pages[j].GetUrl(true) {
          if j == |pages| - 1 {
            assert pages[i] == old(pages)[i];
          }
        }
      } else {
        page := existing;
      }
    }

    /**
     * `pageExists(url)`: the first pooled page whose `getUrl()` equals that
     * of `new Page(url)`, or `null` (the source's `false`) when there is none.
     * It reads the pool and changes nothing.
     */
    method PageExists(url: string) returns (found: Page?)
      ensures found == null <==> !KnownUrl(pages, Url.CanonicalUrl(url, true))
      ensures found != null ==>
                exists i :: 0 <= i < |pages| && pages[i] == found
                            && found.GetUrl(true) == Url.CanonicalUrl(url, true)
                            && !KnownUrl(pages[..i], Url.CanonicalUrl(url, true))
    {
      var tempPage := new Page(url);
      found := FirstWithUrl(tempPage.GetUrl(true));
    }

    /** The scan of `pageExists`, for a key already computed. */
    method FirstWithUrl(key: string) returns (found: Page?)
      ensures found == null <==> !KnownUrl(pages, key)
      ensures found != null ==>
                exists i :: 0 <= i < |pages| && pages[i] == found && found.GetUrl(true) == key && !KnownUrl(pages[..i], key)
    {
      var i := 0;
      while i < |pages|
        invariant 0 <= i <= |pages|
        invariant forall j :: 0 <= j < i ==> pages[j].GetUrl(true) != key
      {
        if pages[i].GetUrl(true) == key {
          found := pages[i];
          assert !KnownUrl(pages[..i], key) by {
            assert forall j :: 0 <= j < i ==> pages[..i][j] == pages[j];
          }
          return;
        }
        i := i + 1;
      }
      return null;
    }

    /** `addPage`: appends without any check. */
    method AddPage(page: Page)
      modifies this`pages
      ensures pages == old(pages) + [page]
    {
      pages := pages + [page];
    }

    /** `getPages`: the pool in insertion order. */
    function GetPages(): seq<Page>
      reads this`pages
    {
      pages
    }
  }

  /**
   * Asking twice for the same URL yields the same instance, and the pool
   * grows by at most one page.
   */
  method NewPageTwice(factory: PageFactory, url: string) returns (first: Page, second: Page)
    requires factory.Valid()
    modifies factory`pages
    ensures factory.Valid()
    ensures first == second
    ensures |old(factory.pages)| <= |factory.pages| <= |old(factory.pages)| + 1
  {
    first := factory.NewPage(url, null);
    ghost var i :| 0 <= i < |factory.pages| && factory.pages[i] == first;
    ghost var pool := factory.pages;
    second := factory.NewPage(url, null);
    ghost var j :| 0 <= j < |factory.pages| && factory.pages[j] == second;
    assert factory.pages == pool;
    assert i == j;
  }
}
