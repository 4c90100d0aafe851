/**
 * The crawl bookkeeping of `Crawler` as pure functions over the crawler's
 * fields: the frontier (`pending_urls`), the visited list, the bad-URL
 * ledger and the previous/current pointers. The HTTP client is an oracle
 * from a URL to a status, a `Content-Type` and the `href` strings of the
 * body's anchors. The `Crawler` class is proved against these functions;
 * the lemmas state what the crawl guarantees.
 */
module CrawlSpec {
  import opened Php
  import Url
  import opened Lists

  /** What the crawl inspects of an HTTP response. */
  datatype Response = Response(status: int, contentType: string, hrefs: seq<string>)

  /** The fields of a `Crawler`. */
  datatype CrawlState = CrawlState(
    pending: seq<string>,
    visited: seq<string>,
    badUrls: map<string, seq<string>>,
    startingUrl: string,
    currentUrl: string,
    previousUrl: string)

  /** A freshly constructed `Crawler`. */
  function Initial(): CrawlState {
    CrawlState([], [], map[], "", "", "")
  }

  /**
   * The frontier invariant: no URL is pending twice, none is visited twice,
   * and no pending URL has been visited.
   */
  ghost predicate Inv(st: CrawlState) {
    && NoDup(st.pending)
    && NoDup(st.visited)
    && forall i :: 0 <= i < |st.pending| ==> st.pending[i] !in st.visited
  }

  /**
   * `enqueueUrl`: the new state and the returned value (`None` for PHP's
   * null). Only the frontier changes, and only by growing at the tail;
   * afterwards the URL is visited or pending.
   */
  function Enqueue(st: CrawlState, url: string): (r: (CrawlState, Option<nat>))
    ensures r.0 == st.(pending := r.0.pending)
    ensures st.pending <= r.0.pending && |r.0.pending| <= |st.pending| + 1
    ensures url in r.0.visited || url in r.0.pending
  {
    if url in st.visited then (st, None)
    else if url in st.pending then (st, None)
    else (st.(pending := st.pending + [url]), Some(|st.pending| + 1))
  }

  /**
   * `addBadUrl(url, _)`: appends the current `previous_url` to the list kept
   * for `url`. Earlier entries stay, in order; other keys are untouched.
   */
  function RecordBadUrl(badUrls: map<string, seq<string>>, url: string, previousUrl: string): (r: map<string, seq<string>>)
    ensures url in r && |r[url]| >= 1 && r[url][|r[url]| - 1] == previousUrl
    ensures r[url][..|r[url]| - 1] == if url in badUrls then badUrls[url] else []
    ensures r.Keys == badUrls.Keys + {url}
    ensures forall k :: k in badUrls && k != url ==> r[k] == badUrls[k]
  {
    var earlier := if url in badUrls then badUrls[url] else [];
    assert (earlier + [previousUrl])[..|earlier|] == earlier;
    badUrls[url := earlier + [previousUrl]]
  }

  /** `isSpecialLink`: `substr(link, 0, 7) == 'mailto:'` or `substr(link, 0, 4) == 'tel:'`. */
  function IsSpecialLink(link: string): (r: bool)
    ensures r <==> "mailto:" <= link || "tel:" <= link
  {
    Substr(link, 7) == "mailto:" || Substr(link, 4) == "tel:"
  }

  /** `isContentTypeHtml`, as the crawl tests it: `strpos(...) !== false`. */
  function IsContentTypeHtml(contentType: string): (r: bool)
    ensures r <==> exists j: nat :: OccursAt(contentType, "text/html", j)
  {
    if StrPos(contentType, "text/html").Some? then
      assert OccursAt(contentType, "text/html", StrPos(contentType, "text/html").value);
      true
    else false
  }

  /**
   * `sameDomain(one, two)`: `two` gets `//` in front when it has none (the
   * very test `sanitizeUrl` makes), then the two parsed hosts must be
   * identical, an unset host matching only an unset host. The first URL is
   * parsed as written.
   */
  function SameDomain(urlOne: string, urlTwo: string): bool
  {
    Url.ParseUrl(urlOne).host == Url.ParseUrl(Url.SanitizeUrl(urlTwo)).host
  }

  /** What `sameDomain` compares, for a second URL with and without `//`. */
  lemma SameDomainSpec(urlOne: string, urlTwo: string)
    ensures Contains(urlTwo, "//") ==> (SameDomain(urlOne, urlTwo) <==> Url.ParseUrl(urlOne).host == Url.ParseUrl(urlTwo).host)
    ensures !Contains(urlTwo, "//") ==> (SameDomain(urlOne, urlTwo) <==> Url.ParseUrl(urlOne).host == Url.ParseUrl("//" + urlTwo).host)
  {
  }

  /**
   * The per-href body of `findHrefs`: a special link yields nothing; a link
   * whose parsed host is unset or falsy becomes the start URL's host
   * followed by the link's path (its query and fragment are dropped);
   * any other link is kept as written.
   */
  function ResolveHref(startingUrl: string, href: string): (r: Option<string>)
    ensures r.None? <==> IsSpecialLink(href)
    ensures r.Some? && Url.ParseUrl(href).host.Some? && !Falsy(Url.ParseUrl(href).host.value) ==> r.value == href
  {
    if IsSpecialLink(href) then None
    else
      var pieces := Url.ParseUrl(href);
      if pieces.host.None? || Falsy(pieces.host.value) then
        Some(OrEmpty(Url.ParseUrl(startingUrl).host) + OrEmpty(pieces.path))
      else Some(href)
  }

  /**
   * One iteration of the `foreach` in `findHrefs`: a special link changes
   * nothing; otherwise its resolution is visited or pending afterwards,
   * and at most that URL joins the tail of the frontier.
   */
  function ProcessHref(st: CrawlState, href: string): (r: CrawlState)
    ensures IsSpecialLink(href) ==> r == st
    ensures !IsSpecialLink(href) ==> Known(r, ResolveHref(st.startingUrl, href).value)
    ensures r == st.(pending := r.pending)
    ensures st.pending <= r.pending && |r.pending| <= |st.pending| + 1
  {
    match ResolveHref(st.startingUrl, href)
    case None => st
    case Some(link) => Enqueue(st, link).0
  }

  /**
   * The whole `foreach` of `findHrefs`, over the anchors' hrefs in document
   * order. It touches nothing but the frontier, which only grows at its
   * tail, by at most one URL per href.
   */
  function FindHrefs(st: CrawlState, hrefs: seq<string>): (r: CrawlState)
    ensures r == st.(pending := r.pending)
    ensures st.pending <= r.pending && |r.pending| <= |st.pending| + |hrefs|
    decreases |hrefs|
  {
    if hrefs == [] then st
    else
      var next := ProcessHref(st, hrefs[0]);
      var r := FindHrefs(next, hrefs[1..]);
      PrefixTransitive(st.pending, next.pending, r.pending);
      r
  }

  /**
   * One call of `crawl` up to its recursive self-call: the new state, and
   * whether the crawl stopped. It stops when `dequeueUrl` yields nothing or
   * a falsy string. Otherwise the pointers shift, the URL is fetched and
   * marked visited, a status other than 200 records a bad URL, and an HTML
   * page on the start URL's domain has its hrefs processed.
   */
  function Step(st: CrawlState, fetch: string -> Response): (r: (CrawlState, bool))
    ensures r.0.startingUrl == st.startingUrl
    ensures st.visited <= r.0.visited
    ensures r.1 ==> r.0.visited == st.visited
  {
    if st.pending == [] then (st, true)
    else if Falsy(st.pending[0]) then (st.(pending := st.pending[1..]), true)
    else
      var response := fetch(st.pending[0]);
      (Extract(Check(Visit(st), response), response), false)
  }

  /**
   * The part of a step before the fetch: the head leaves the frontier and
   * becomes the current URL, the old current URL becomes the previous one,
   * and the head is marked visited.
   */
  function Visit(st: CrawlState): (r: CrawlState)
    requires st.pending != []
    ensures st.pending == [r.currentUrl] + r.pending
    ensures r.visited == st.visited + [r.currentUrl]
    ensures r.previousUrl == st.currentUrl
    ensures r.badUrls == st.badUrls && r.startingUrl == st.startingUrl
  {
    var url := st.pending[0];
    assert st.pending == [url] + st.pending[1..];
    st.(pending := st.pending[1..], previousUrl := st.currentUrl, currentUrl := url, visited := st.visited + [url])
  }

  /**
   * A status other than 200 records the current URL as bad, seen from the
   * previous one. Only the ledger changes, and it changes exactly when the
   * status is not 200; no key is ever dropped.
   */
  function Check(st: CrawlState, response: Response): (r: CrawlState)
    ensures r == st.(badUrls := r.badUrls)
    ensures r.badUrls == st.badUrls <==> response.status == 200
    ensures st.badUrls.Keys <= r.badUrls.Keys
  {
    if response.status != 200
    then st.(badUrls := RecordBadUrl(st.badUrls, st.currentUrl, st.previousUrl))
    else st
  }

  /**
   * An HTML page on the start URL's domain has its hrefs processed; any
   * other page leaves the state alone. Only the frontier changes, growing
   * at its tail.
   */
  function Extract(st: CrawlState, response: Response): (r: CrawlState)
    ensures !(IsContentTypeHtml(response.contentType) && SameDomain(st.startingUrl, st.currentUrl)) ==> r == st
    ensures r == st.(pending := r.pending)
    ensures st.pending <= r.pending
  {
    if IsContentTypeHtml(response.contentType) && SameDomain(st.startingUrl, st.currentUrl)
    then FindHrefs(st, response.hrefs)
    else st
  }

  /**
   * `crawl` as a loop of at most `fuel` rounds of `round`: the final state,
   * and whether the crawl stopped within that many rounds. The source gives
   * no bound on the number of rounds, since every fetch may discover new URLs.
   */
  function Iterate(round: CrawlState -> (CrawlState, bool), st: CrawlState, fuel: nat): (CrawlState, bool)
    decreases fuel
  {
    if fuel == 0 then (st, false)
    else
      var (next, stopped) := round(st);
      if stopped then (next, true) else Iterate(round, next, fuel - 1)
  }

  /** One round of `crawl` against the HTTP oracle `fetch`. */
  function Round(fetch: string -> Response): CrawlState -> (CrawlState, bool) {
    st => Step(st, fetch)
  }

  /**
   * The crawl against `fetch`, for at most `fuel` rounds. The start URL is
   * never reassigned.
   */
  function Run(st: CrawlState, fetch: string -> Response, fuel: nat): (r: (CrawlState, bool))
    ensures r.0.startingUrl == st.startingUrl
  {
    IterateKeeps(Round(fetch), (s: CrawlState) => s.startingUrl == st.startingUrl, st, fuel);
    Iterate(Round(fetch), st, fuel)
  }

  /** `start(url)`: remember the start URL, enqueue it, crawl. The crawl runs from `url`. */
  function Start(st: CrawlState, url: string, fetch: string -> Response, fuel: nat): (r: (CrawlState, bool))
    ensures r.0.startingUrl == url
  {
    Run(Enqueue(st.(startingUrl := url), url).0, fetch, fuel)
  }

  // ---------------------------------------------------------------------
  // Frontier

  /**
   * `enqueueUrl` is a no-op returning null when the URL is visited or
   * pending; otherwise it appends at the tail and returns the new length.
   * Either way the frontier invariant is kept.
   */
  lemma EnqueueSpec(st: CrawlState, url: string)
    ensures Enqueue(st, url).1.None? <==> url in st.visited || url in st.pending
    ensures Enqueue(st, url).1.None? ==> Enqueue(st, url).0 == st
    ensures Enqueue(st, url).1.Some? ==>
              && Enqueue(st, url).0 == st.(pending := st.pending + [url])
              && Enqueue(st, url).1.value == |Enqueue(st, url).0.pending|
    ensures Inv(st) ==> Inv(Enqueue(st, url).0)
  {
  }

  /** Processing hrefs keeps the frontier invariant. */
  lemma {:induction false} FindHrefsKeepsInv(st: CrawlState, hrefs: seq<string>)
    requires Inv(st)
    ensures Inv(FindHrefs(st, hrefs))
    decreases |hrefs|
  {
    if hrefs != [] {
      if ResolveHref(st.startingUrl, hrefs[0]).Some? {
        EnqueueSpec(st, ResolveHref(st.startingUrl, hrefs[0]).value);
      }
      FindHrefsKeepsInv(ProcessHref(st, hrefs[0]), hrefs[1..]);
    }
  }

  /** `url` is visited or pending, so `enqueueUrl(url)` would be a no-op. */
  ghost predicate Known(st: CrawlState, url: string) {
    url in st.visited || url in st.pending
  }

  /**
   * One href appends its resolution to the frontier exactly when it has
   * one and that URL is neither visited nor pending; otherwise it leaves
   * the state alone.
   */
  lemma ProcessHrefSpec(st: CrawlState, href: string)
    ensures ResolveHref(st.startingUrl, href).Some? && !Known(st, ResolveHref(st.startingUrl, href).value) ==>
              ProcessHref(st, href) == st.(pending := st.pending + [ResolveHref(st.startingUrl, href).value])
    ensures ResolveHref(st.startingUrl, href).None? || Known(st, ResolveHref(st.startingUrl, href).value) ==>
              ProcessHref(st, href) == st
  {
  }

  /** `url` is what `findHrefs` makes of one of the non-special `hrefs`. */
  ghost predicate ResolvedFrom(startingUrl: string, hrefs: seq<string>, url: string) {
    exists h :: h in hrefs && !IsSpecialLink(h) && ResolveHref(startingUrl, h) == Some(url)
  }

  /**
   * Every URL that processing adds to the frontier is the resolution of a
   * non-special href of the page; in particular no `mailto:` or `tel:`
   * link is ever enqueued as written.
   */
  lemma {:induction false} FindHrefsAddsResolvedHrefs(st: CrawlState, hrefs: seq<string>)
    ensures forall k :: |st.pending| <= k < |FindHrefs(st, hrefs).pending| ==>
              ResolvedFrom(st.startingUrl, hrefs, FindHrefs(st, hrefs).pending[k])
    ensures st.pending <= FindHrefs(st, hrefs).pending
    decreases |hrefs|
  {
    if hrefs != [] {
      var next := ProcessHref(st, hrefs[0]);
      ProcessHrefSpec(st, hrefs[0]);
      FindHrefsAddsResolvedHrefs(next, hrefs[1..]);
      var r := FindHrefs(next, hrefs[1..]);
      assert r == FindHrefs(st, hrefs);
      assert next.startingUrl == st.startingUrl;
      forall k | |st.pending| <= k < |r.pending|
        ensures ResolvedFrom(st.startingUrl, hrefs, r.pending[k])
      {
        if k < |next.pending| {
          var link := ResolveHref(st.startingUrl, hrefs[0]).value;
          assert next.pending == st.pending + [link];
          assert r.pending[k] == next.pending[k] == link;
          assert hrefs[0] in hrefs;
        } else {
          assert ResolvedFrom(next.startingUrl, hrefs[1..], r.pending[k]);
          var h :| h in hrefs[1..] && !IsSpecialLink(h) && ResolveHref(st.startingUrl, h) == Some(r.pending[k]);
          assert h in hrefs;
        }
      }
    }
  }

  /**
   * Every href of the page that is not a special link has its resolution
   * visited or pending once the hrefs are processed, and every URL that
   * was visited or pending still is.
   */
  lemma {:induction false} FindHrefsEnqueuesEvery(st: CrawlState, hrefs: seq<string>)
    ensures forall h :: h in hrefs && ResolveHref(st.startingUrl, h).Some? ==>
              Known(FindHrefs(st, hrefs), ResolveHref(st.startingUrl, h).value)
    ensures forall u :: Known(st, u) ==> Known(FindHrefs(st, hrefs), u)
    decreases |hrefs|
  {
    if hrefs != [] {
      var next := ProcessHref(st, hrefs[0]);
      ProcessHrefSpec(st, hrefs[0]);
      FindHrefsEnqueuesEvery(next, hrefs[1..]);
      var r := FindHrefs(next, hrefs[1..]);
      assert r == FindHrefs(st, hrefs);
      assert next.startingUrl == st.startingUrl;
      forall u | Known(st, u) ensures Known(r, u) {
        assert Known(next, u);
      }
      forall h | h in hrefs && ResolveHref(st.startingUrl, h).Some?
        ensures Known(r, ResolveHref(st.startingUrl, h).value)
      {
        if h == hrefs[0] {
          assert Known(next, ResolveHref(st.startingUrl, h).value);
        } else {
          assert h in hrefs[1..];
        }
      }
    }
  }

  // ---------------------------------------------------------------------
  // One step

  /** A step keeps the frontier invariant. */
  lemma StepKeepsInv(st: CrawlState, fetch: string -> Response)
    requires Inv(st)
    ensures Inv(Step(st, fetch).0)
  {
    if st.pending != [] && !Falsy(st.pending[0]) {
      assert st.pending[0] !in st.pending[1..];
      var checked := Check(Visit(st), fetch(st.pending[0]));
      assert Inv(checked);
      FindHrefsKeepsInv(checked, fetch(st.pending[0]).hrefs);
    }
  }

  /**
   * A step that does not stop takes the head of the frontier (FIFO),
   * shifts `previous_url` to the old `current_url` and `current_url` to
   * that head, appends it to the visited list, and keeps the rest of the
   * frontier, in order, ahead of anything it discovers.
   */
  lemma StepTakesHead(st: CrawlState, fetch: string -> Response)
    requires !Step(st, fetch).1
    ensures st.pending != []
    ensures Step(st, fetch).0.visited == st.visited + [st.pending[0]]
    ensures Step(st, fetch).0.previousUrl == st.currentUrl
    ensures Step(st, fetch).0.currentUrl == st.pending[0]
    ensures Step(st, fetch).0.startingUrl == st.startingUrl
    ensures st.pending[1..] <= Step(st, fetch).0.pending
  {
    var checked := Check(Visit(st), fetch(st.pending[0]));
    FindHrefsAddsResolvedHrefs(checked, fetch(st.pending[0]).hrefs);
  }

  /**
   * A step that does not stop records a bad URL exactly when the status is
   * not 200, attributing it to the page crawled just before.
   */
  lemma StepRecordsBadUrl(st: CrawlState, fetch: string -> Response)
    requires !Step(st, fetch).1
    ensures st.pending != []
    ensures fetch(st.pending[0]).status != 200 ==>
              Step(st, fetch).0.badUrls == RecordBadUrl(st.badUrls, st.pending[0], st.currentUrl)
    ensures fetch(st.pending[0]).status == 200 ==> Step(st, fetch).0.badUrls == st.badUrls
  {
  }

  /**
   * Hrefs are looked at only for an HTML page on the start URL's domain;
   * any other page adds nothing to the frontier, and what such a page adds
   * comes from its own non-special hrefs.
   */
  lemma StepExtractsOnlyHtmlSameDomain(st: CrawlState, fetch: string -> Response)
    requires !Step(st, fetch).1
    ensures st.pending != []
    ensures !(IsContentTypeHtml(fetch(st.pending[0]).contentType) && SameDomain(st.startingUrl, st.pending[0])) ==>
              Step(st, fetch).0.pending == st.pending[1..]
    ensures IsContentTypeHtml(fetch(st.pending[0]).contentType) && SameDomain(st.startingUrl, st.pending[0]) ==>
              forall k :: |st.pending| - 1 <= k < |Step(st, fetch).0.pending| ==>
                ResolvedFrom(st.startingUrl, fetch(st.pending[0]).hrefs, Step(st, fetch).0.pending[k])
  {
    var checked := Check(Visit(st), fetch(st.pending[0]));
    FindHrefsAddsResolvedHrefs(checked, fetch(st.pending[0]).hrefs);
  }

  /**
   * An HTML page on the start URL's domain has every href that is not
   * `mailto:` or `tel:` followed: after the round its resolution is
   * visited or pending.
   */
  lemma StepEnqueuesEveryHref(st: CrawlState, fetch: string -> Response)
    requires st.pending != [] && !Falsy(st.pending[0])
    ensures !Step(st, fetch).1
    ensures IsContentTypeHtml(fetch(st.pending[0]).contentType) && SameDomain(st.startingUrl, st.pending[0]) ==>
              forall h :: h in fetch(st.pending[0]).hrefs && !IsSpecialLink(h) ==>
                Known(Step(st, fetch).0, ResolveHref(st.startingUrl, h).value)
  {
    var response := fetch(st.pending[0]);
    var checked := Check(Visit(st), response);
    assert checked.startingUrl == st.startingUrl && checked.currentUrl == st.pending[0];
    if IsContentTypeHtml(response.contentType) && SameDomain(st.startingUrl, st.pending[0]) {
      assert Step(st, fetch).0 == FindHrefs(checked, response.hrefs);
      FindHrefsEnqueuesEvery(checked, response.hrefs);
    }
  }

  /** The ledger `b` keeps every key of `a`, each list of `a` as a prefix. */
  ghost predicate LedgerExtends(a: map<string, seq<string>>, b: map<string, seq<string>>) {
    forall k :: k in a ==> k in b && a[k] <= b[k]
  }

  /** Extending the ledger is transitive. */
  lemma LedgerExtendsTransitive(a: map<string, seq<string>>, b: map<string, seq<string>>, c: map<string, seq<string>>)
    requires LedgerExtends(a, b) && LedgerExtends(b, c)
    ensures LedgerExtends(a, c)
  {
    forall k | k in a ensures k in c && a[k] <= c[k] {
      PrefixTransitive(a[k], b[k], c[k]);
    }
  }

  /** A round never drops a bad URL nor an entry recorded for it. */
  lemma StepExtendsLedger(st: CrawlState, fetch: string -> Response)
    ensures LedgerExtends(st.badUrls, Step(st, fetch).0.badUrls)
  {
    if st.pending != [] && !Falsy(st.pending[0]) {
      var visited := Visit(st);
      var response := fetch(st.pending[0]);
      if response.status != 200 {
        var r := RecordBadUrl(visited.badUrls, visited.currentUrl, visited.previousUrl);
        forall k | k in st.badUrls ensures k in r && st.badUrls[k] <= r[k] {
          if k == visited.currentUrl {
            assert st.badUrls[k] == r[k][..|r[k]| - 1];
          }
        }
      }
    }
  }

  /**
   * A step that stops does so without fetching: at most a falsy head leaves
   * the frontier, and nothing else changes.
   */
  lemma StepStops(st: CrawlState, fetch: string -> Response)
    requires Step(st, fetch).1
    ensures Step(st, fetch).0 == st.(pending := Step(st, fetch).0.pending)
    ensures Step(st, fetch).0.pending == st.pending || Step(st, fetch).0.pending == st.pending[1..]
  {
  }

  /**
   * Once the frontier is empty the crawl has stopped for good: a step
   * changes nothing, so in particular nothing more is marked visited.
   */
  lemma StopIsFinal(st: CrawlState, fetch: string -> Response, fuel: nat)
    requires st.pending == []
    ensures Step(st, fetch) == (st, true)
    ensures fuel > 0 ==> Run(st, fetch, fuel) == (st, true)
  {
  }

  // ---------------------------------------------------------------------
  // The whole crawl

  /** Whatever one round keeps, the whole loop keeps. */
  lemma {:induction false} IterateKeeps(round: CrawlState -> (CrawlState, bool), keep: CrawlState -> bool,
                                        st: CrawlState, fuel: nat)
    requires keep(st)
    requires forall s :: keep(s) ==> keep(round(s).0)
    ensures keep(Iterate(round, st, fuel).0)
    decreases fuel
  {
    if fuel > 0 && !round(st).1 {
      IterateKeeps(round, keep, round(st).0, fuel - 1);
    }
  }

  /** A crawl with rounds left is one step followed by the rest of the crawl. */
  lemma RunUnfold(st: CrawlState, fetch: string -> Response, fuel: nat)
    requires fuel > 0
    ensures Run(st, fetch, fuel) ==
              if Step(st, fetch).1 then (Step(st, fetch).0, true) else Run(Step(st, fetch).0, fetch, fuel - 1)
  {
  }

  /** The crawl keeps the frontier invariant, however many steps it takes. */
  lemma RunKeepsInv(st: CrawlState, fetch: string -> Response, fuel: nat)
    requires Inv(st)
    ensures Inv(Run(st, fetch, fuel).0)
  {
    forall s | Inv(s) ensures Inv(Round(fetch)(s).0) {
      StepKeepsInv(s, fetch);
    }
    IterateKeeps(Round(fetch), s => Inv(s), st, fuel);
  }

  /** `start` on a crawler that satisfies the frontier invariant keeps it. */
  lemma StartKeepsInv(st: CrawlState, url: string, fetch: string -> Response, fuel: nat)
    requires Inv(st)
    ensures Inv(Start(st, url, fetch, fuel).0)
  {
    EnqueueSpec(st.(startingUrl := url), url);
    RunKeepsInv(Enqueue(st.(startingUrl := url), url).0, fetch, fuel);
  }

  /** The visited list only grows. */
  lemma RunVisitedGrows(st: CrawlState, fetch: string -> Response, fuel: nat)
    ensures st.visited <= Run(st, fetch, fuel).0.visited
  {
    forall s: CrawlState | st.visited <= s.visited ensures st.visited <= Round(fetch)(s).0.visited {
      PrefixTransitive(st.visited, s.visited, Step(s, fetch).0.visited);
    }
    IterateKeeps(Round(fetch), (s: CrawlState) => st.visited <= s.visited, st, fuel);
  }

  /**
   * A bad URL, once recorded, stays in the ledger for the rest of the
   * crawl, with every page it was found on.
   */
  lemma RunKeepsBadUrls(st: CrawlState, fetch: string -> Response, fuel: nat)
    ensures LedgerExtends(st.badUrls, Run(st, fetch, fuel).0.badUrls)
  {
    forall s: CrawlState | LedgerExtends(st.badUrls, s.badUrls)
      ensures LedgerExtends(st.badUrls, Round(fetch)(s).0.badUrls)
    {
      StepExtendsLedger(s, fetch);
      LedgerExtendsTransitive(st.badUrls, s.badUrls, Step(s, fetch).0.badUrls);
    }
    IterateKeeps(Round(fetch), (s: CrawlState) => LedgerExtends(st.badUrls, s.badUrls), st, fuel);
  }

  /**
   * Every URL is fetched at most once: the visited list of a crawl keeps
   * what it had and never holds a URL twice.
   */
  lemma RunVisitsOnce(st: CrawlState, fetch: string -> Response, fuel: nat)
    requires Inv(st)
    ensures st.visited <= Run(st, fetch, fuel).0.visited
    ensures NoDup(Run(st, fetch, fuel).0.visited)
  {
    RunKeepsInv(st, fetch, fuel);
    RunVisitedGrows(st, fetch, fuel);
  }

  // ---------------------------------------------------------------------
  // Domain test

  /** `sameDomain(u, u)` holds for every URL that contains `//`. */
  lemma SameDomainReflexive(url: string)
    requires Contains(url, "//")
    ensures SameDomain(url, url)
  {
  }

  /**
   * It does not hold for a bare host: `sameDomain('example.com',
   * 'example.com')` compares an unset host with `example.com`, so a crawl
   * seeded with a scheme-less, slash-less URL extracts no hrefs from it.
   */
  lemma BareHostNotSameDomain(h: string)
    requires Url.IsBareHost(h)
    ensures !SameDomain(h, h)
  {
    Url.PartsOfBareHost(h);
    Url.NoSlashesInBareHost(h);
    assert Url.Cut(h, '#') == (h, None);
    assert Url.Cut(h, '?') == (h, None);
    assert Url.Cut(h, ':') == (h, None);
    assert Url.SplitScheme(h) == (None, h);
    assert !(|h| >= 2 && h[..2] == "//") by {
      if |h| >= 2 { assert h[0] != '/'; }
    }
  }

  /**
   * A seed given as a bare host is crawled alone: it is fetched and marked
   * visited, but since `sameDomain` fails for it no href of its page is
   * followed, and the crawl then stops.
   */
  lemma BareHostSeedCrawledAlone(h: string, fetch: string -> Response, fuel: nat)
    requires Url.IsBareHost(h) && h != "0"
    requires fuel >= 2
    ensures Start(Initial(), h, fetch, fuel).1
    ensures Start(Initial(), h, fetch, fuel).0.visited == [h]
    ensures Start(Initial(), h, fetch, fuel).0.pending == []
  {
    var st0 := Initial().(startingUrl := h, pending := [h]);
    assert Enqueue(Initial().(startingUrl := h), h).0 == st0;
    BareHostNotSameDomain(h);
    var st1 := Check(Visit(st0), fetch(h));
    assert st1.pending == [] && st1.visited == [h];
    assert Extract(st1, fetch(h)) == st1;
    assert Step(st0, fetch) == (st1, false);
    StopIsFinal(st1, fetch, fuel - 1);
    assert Run(st0, fetch, fuel) == Run(st1, fetch, fuel - 1);
    assert Start(Initial(), h, fetch, fuel) == (st1, true);
  }

  /**
   * An href that is a root-relative path, without query or fragment, is
   * completed with the seed's host and no `//`: from the seed
   * `http://example.com/` (whose host `SeedHost` gives) the href
   * `/blog/post` becomes `example.com/blog/post`.
   */
  lemma RelativeHrefTakesSeedHost(seed: string, p: string)
    requires '?' !in p && '#' !in p && (p == "" || p[0] != '/')
    ensures ResolveHref(seed, "/" + p) == Some(OrEmpty(Url.ParseUrl(seed).host) + "/" + p)
  {
    var href := "/" + p;
    RootPath(p);
    SlashNotSpecial(href);
    HostlessResolves(seed, href);
    ConcatAssoc(OrEmpty(Url.ParseUrl(seed).host), "/", p);
  }

  /** An href starting with `/` is not a special link. */
  lemma SlashNotSpecial(href: string)
    requires |href| > 0 && href[0] == '/'
    ensures !IsSpecialLink(href)
  {
  }

  /** A non-special href without a host resolves to the seed's host and its own path. */
  lemma HostlessResolves(seed: string, href: string)
    requires !IsSpecialLink(href) && Url.ParseUrl(href).host.None?
    ensures ResolveHref(seed, href) == Some(OrEmpty(Url.ParseUrl(seed).host) + OrEmpty(Url.ParseUrl(href).path))
  {
  }

  /** A root-relative path parses to that path and no host. */
  lemma RootPath(p: string)
    requires '?' !in p && '#' !in p && (p == "" || p[0] != '/')
    ensures Url.ParseUrl("/" + p) == Url.UrlParts(None, None, None, None, None, Some("/" + p), None, None)
  {
    var s := "/" + p;
    assert '#' !in s && '?' !in s;
    assert Url.Cut(s, '#') == (s, None);
    assert Url.Cut(s, '?') == (s, None);
    Url.NoScheme(s);
    assert !(|s| >= 2 && s[..2] == "//") by {
      if |s| >= 2 {
        assert s[..2][1] == s[1] == p[0];
      }
    }
  }

  /**
   * The query of an href without a host is dropped: `/about?page=2`
   * resolves exactly as `/about` does.
   */
  lemma HostlessHrefDropsQuery(startingUrl: string, p: string, q: string)
    requires '?' !in p && '#' !in p && '#' !in q
    requires Url.ParseUrl(p).host.None? || Falsy(Url.ParseUrl(p).host.value)
    requires !IsSpecialLink(p)
    ensures ResolveHref(startingUrl, p + "?" + q) == ResolveHref(startingUrl, p)
  {
    Url.ParseDropsQuery(p, q);
    PrefixBeforeQuery("mailto:", p, q);
    PrefixBeforeQuery("tel:", p, q);
  }

  /** A word without `?` that starts `p?q` already starts `p`. */
  lemma PrefixBeforeQuery(w: string, p: string, q: string)
    requires '?' !in w
    ensures w <= p + "?" + q ==> w <= p
  {
    var s := p + "?" + q;
    assert s[|p|] == '?';
    assert s[..|p|] == p;
    if w <= s && |w| <= |p| {
      assert w == s[..|w|] == p[..|w|];
    }
  }

  /** The host of a seed `scheme://host/`. */
  lemma SeedHost(w: string, h: string)
    requires Url.IsSchemeWord(w) && Url.IsBareHost(h)
    ensures Url.ParseUrl(w + "://" + h + "/").host == Some(h)
  {
    Url.NoSlashesInBareHost(h);
    Url.PartsOfBareHostSlash(h);
    Url.ParseWithScheme(w, h + "/");
    assert w + "://" + (h + "/") == w + "://" + h + "/";
    assert "//" + (h + "/") == Url.SanitizeUrl(h + "/");
  }
}
