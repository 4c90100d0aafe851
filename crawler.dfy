/**
 * `Crawler`: the object that owns the frontier, the visited list and the
 * bad-URL ledger and updates them in place while it crawls. The ensures
 * of every method give the new fields, most of them as the matching
 * function of `CrawlSpec`; the properties of the crawl are the contracts
 * and lemmas there.
 * The HTTP client is the `fetch` oracle.
 */
module Crawlers {
  import opened Php
  import opened CrawlSpec
  import opened Lists
  import Url

  class Crawler {
    var pendingUrls: seq<string>
    var visitedUrls: seq<string>
    var badUrls: map<string, seq<string>>
    var startingUrl: string
    var currentUrl: string
    var previousUrl: string

    /** The fields as a value. */
    function State(): CrawlState
      reads this
    {
      CrawlState(pendingUrls, visitedUrls, badUrls, startingUrl, currentUrl, previousUrl)
    }

    /** The frontier invariant holds of the fields. */
    ghost predicate Valid()
      reads this
    {
      Inv(State())
    }

    constructor()
      ensures State() == Initial()
      ensures Valid()
    {
      pendingUrls := [];
      visitedUrls := [];
      badUrls := map[];
      startingUrl := "";
      currentUrl := "";
      previousUrl := "";
    }

    /**
     * `start($url)`: the URL becomes the start URL and the first pending
     * URL, then the crawl runs for at most `fuel` steps; `finished` says
     * whether it stopped by itself within them. The crawl keeps the start
     * URL and the frontier invariant.
     */
    method Start(url: string, fetch: string -> Response, fuel: nat) returns (finished: bool)
      modifies this
      ensures (State(), finished) == CrawlSpec.Start(old(State()), url, fetch, fuel)
      ensures startingUrl == url
      ensures old(Valid()) ==> Valid()
    {
      ghost var st0 := State();
      startingUrl := url;
      var _ := EnqueueUrl(url);
      finished := Crawl(fetch, fuel);
      if Inv(st0) {
        StartKeepsInv(st0, url, fetch, fuel);
      }
    }

    /**
     * `crawl()`, its tail self-call turned into a loop of at most `fuel`
     * rounds. The frontier invariant is kept and nothing visited is
     * forgotten.
     */
    method Crawl(fetch: string -> Response, fuel: nat) returns (finished: bool)
      modifies this
      ensures (State(), finished) == Run(old(State()), fetch, fuel)
      ensures old(Valid()) ==> Valid() && old(visitedUrls) <= visitedUrls && NoDup(visitedUrls)
    {
      ghost var st0 := State();
      var i: nat := 0;
      finished := false;
      while i < fuel && !finished
        invariant i <= fuel
        invariant !finished ==> Run(State(), fetch, fuel - i) == Run(st0, fetch, fuel)
        invariant finished ==> (State(), true) == Run(st0, fetch, fuel)
        decreases fuel - i
      {
        ghost var before := State();
        RunUnfold(before, fetch, fuel - i);
        finished := CrawlOnce(fetch);
        assert (State(), finished) == Step(before, fetch);
        i := i + 1;
      }
      if Inv(st0) {
        RunKeepsInv(st0, fetch, fuel);
        RunVisitsOnce(st0, fetch, fuel);
      }
    }

    /**
     * One round of `crawl()`: dequeue; stop on nothing or a falsy URL;
     * otherwise shift the pointers, fetch, mark visited, record a bad URL
     * on a status other than 200, and process the hrefs of an HTML page
     * on the start URL's domain.
     */
    method CrawlOnce(fetch: string -> Response) returns (stopped: bool)
      modifies this
      ensures (State(), stopped) == Step(old(State()), fetch)
    {
      ghost var st0 := State();
      var url := DequeueUrl();
      if url.None? || Falsy(url.value) {
        return true;
      }
      previousUrl := currentUrl;
      currentUrl := url.value;
      var response := fetch(url.value);
      AddVisited(url.value);
      assert State() == Visit(st0);
      if response.status != 200 {
        AddBadUrl(url.value, response.status);
      }
      ghost var checked := State();
      assert checked == Check(Visit(st0), response);
      if IsContentTypeHtml(response.contentType) && SameDomain(startingUrl, url.value) {
        FindHrefs(response.hrefs);
      }
      assert State() == Extract(checked, response);
      return false;
    }

    /**
     * `addBadUrl($url, $status_code)`: appends the previous URL to the list
     * kept for `url`; the status code is only printed.
     */
    method AddBadUrl(url: string, statusCode: int)
      modifies this`badUrls
      ensures badUrls == RecordBadUrl(old(badUrls), url, previousUrl)
    {
      var earlier: seq<string> := [];
      if url in badUrls {
        earlier := badUrls[url];
      }
      earlier := earlier + [previousUrl];
      badUrls := badUrls[url := earlier];
    }

    /** `addVisited($url)`: `array_push` onto the visited list. */
    method AddVisited(url: string)
      modifies this`visitedUrls
      ensures visitedUrls == old(visitedUrls) + [url]
    {
      visitedUrls := visitedUrls + [url];
    }

    /**
     * The `foreach` of `findHrefs($body)` over the hrefs of the body's
     * anchors, in document order.
     */
    method FindHrefs(hrefs: seq<string>)
      modifies this`pendingUrls
      ensures State() == CrawlSpec.FindHrefs(old(State()), hrefs)
    {
      for i := 0 to |hrefs|
        invariant CrawlSpec.FindHrefs(State(), hrefs[i..]) == CrawlSpec.FindHrefs(old(State()), hrefs)
      {
        assert hrefs[i..][0] == hrefs[i] && hrefs[i..][1..] == hrefs[i + 1..];
        ProcessHref(hrefs[i]);
      }
      assert hrefs[|hrefs|..] == [];
    }

    /**
     * The body of that `foreach`: skip a special link, complete a link
     * without a host from the start URL's host, and enqueue the result.
     */
    method ProcessHref(href: string)
      modifies this`pendingUrls
      ensures State() == CrawlSpec.ProcessHref(old(State()), href)
    {
      if IsSpecialLink(href) {
        return;
      }
      var link := href;
      var pieces := Url.ParseUrl(href);
      if pieces.host.None? || Falsy(pieces.host.value) {
        link := OrEmpty(Url.ParseUrl(startingUrl).host) + OrEmpty(pieces.path);
      }
      var _ := EnqueueUrl(link);
    }

    /**
     * `dequeueUrl()`: `array_shift`, giving `None` (PHP's null) on an empty
     * frontier. Nothing is lost: the old frontier is the URL returned
     * followed by the new one.
     */
    method DequeueUrl() returns (url: Option<string>)
      modifies this`pendingUrls
      ensures url.None? <==> old(pendingUrls) == []
      ensures old(pendingUrls) == (if url.Some? then [url.value] else []) + pendingUrls
    {
      if pendingUrls == [] {
        return None;
      }
      url := Some(pendingUrls[0]);
      pendingUrls := pendingUrls[1..];
    }

    /**
     * `enqueueUrl($url)`: nothing happens, and null is returned, when the
     * URL is visited or already pending; otherwise it goes to the tail and
     * the new frontier length is returned.
     */
    method EnqueueUrl(url: string) returns (r: Option<nat>)
      modifies this`pendingUrls
      ensures (State(), r) == Enqueue(old(State()), url)
      ensures r.None? <==> url in visitedUrls || url in old(pendingUrls)
      ensures r.None? ==> pendingUrls == old(pendingUrls)
      ensures r.Some? ==> pendingUrls == old(pendingUrls) + [url] && r.value == |pendingUrls|
    {
      if url in visitedUrls {
        return None;
      } else if url in pendingUrls {
        return None;
      }
      pendingUrls := pendingUrls + [url];
      return Some(|pendingUrls|);
    }
  }
}
