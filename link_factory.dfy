/**
 * `LinkFactory`: the get-or-create pool of links, keyed by the ordered
 * pair of the two pages' `getUrl()` strings, in insertion order.
 */
module LinkFactories {
  import opened Php
  import opened Links
  import opened Lists
  import opened Pages

  class LinkFactory {
    /** Every link handed out so far, in the order they were created. */
    var links: seq<Link>

    /** At most one link per ordered `(from, to)` pair. */
    ghost predicate Valid()
      reads this
    {
      NoDup(links)
    }

    constructor ()
      ensures links == [] && Valid()
    {
      links := [];
    }

    /**
     * `newLink(from, to)`: the pooled link from `from.getUrl()` to
     * `to.getUrl()`, or a new such link appended to the pool.
     */
    method NewLink(fromPage: Page, toPage: Page) returns (link: Link)
      requires Valid()
      modifies this`links
      ensures Valid()
      ensures link == Link(fromPage.GetUrl(true), toPage.GetUrl(true))
      ensures links == AppendIfAbsent(old(links), link)
    {
      var existing := LinkExists(fromPage, toPage);
      if existing.None? {
        link := Link(fromPage.GetUrl(true), toPage.GetUrl(true));
        AddLink(link);
      } else {
        link := existing.value;
      }
    }

    /**
     * `linkExists(from, to)`: the first pooled link whose ends match the
     * two pages' `getUrl()`, or `None` (the source's `false`). It reads the
     * pool and changes nothing.
     */
    method LinkExists(fromPage: Page, toPage: Page) returns (found: Option<Link>)
      ensures found.None? <==> Link(fromPage.GetUrl(true), toPage.GetUrl(true)) !in links
      ensures found.Some? ==> found.value == Link(fromPage.GetUrl(true), toPage.GetUrl(true))
    {
      var fromUrl := fromPage.GetUrl(true);
      var toUrl := toPage.GetUrl(true);
      var i := 0;
      while i < |links|
        invariant 0 <= i <= |links|
        invariant Link(fromUrl, toUrl) !in links[..i]
      {
        if links[i].GetFromPageUrl() == fromUrl && links[i].GetToPageUrl() == toUrl {
          return Some(links[i]);
        }
        assert links[..i + 1] == links[..i] + [links[i]];
        i := i + 1;
      }
      assert links[..i] == links;
      return None;
    }

    /** `addLink`: appends without any check. */
    method AddLink(link: Link)
      modifies this`links
      ensures links == old(links) + [link]
    {
      links := links + [link];
    }

    /** `getLinks`: the pool in insertion order. */
    function GetLinks(): seq<Link>
      reads this`links
    {
      links
    }
  }

  /**
   * Building the same pair twice yields one link, and `(a, b)` and `(b, a)`
   * are pooled as two links when `a` and `b` differ.
   */
  method NewLinkTwice(factory: LinkFactory, a: Page, b: Page) returns (first: Link, second: Link, reverse: Link)
    requires factory.Valid()
    modifies factory`links
    ensures factory.Valid()
    ensures first == second
    ensures a.GetUrl(true) != b.GetUrl(true) ==> reverse != first && first in factory.links && reverse in factory.links
    ensures |factory.links| <= |old(factory.links)| + 2
  {
    first := factory.NewLink(a, b);
    second := factory.NewLink(a, b);
    reverse := factory.NewLink(b, a);
  }
}
