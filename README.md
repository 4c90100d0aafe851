# Crawl bookkeeping of SevenEcks/web-crawler, in Dafny

SevenEcks/web-crawler is a PHP crawler. It starts from a seed URL and keeps a FIFO frontier of pending URLs. Each URL it dequeues is fetched and marked visited. A status other than 200 is recorded in a bad-URL ledger, keyed by the URL and holding the page crawled just before it. An HTML page on the seed's domain has its anchors' `href`s resolved and enqueued. Next to the crawler sit two get-or-create pools (`PageFactory`, `SiteFactory`) keyed by a canonical URL string, a pool of directed `Link`s between pages (`LinkFactory`), and the append-if-absent edge lists of `Page` and `Site`.

The project models that bookkeeping and proves what it guarantees.

| file | module | what it holds |
|---|---|---|
| `php.dfy` | `Php` | `strpos`, `substr(s, 0, n)`, PHP string truthiness, `Option` for null and `false` results |
| `url.dfy` | `Url` | `sanitizeUrl`, a splitter standing in for `parse_url`, the `getUrl(full)` string (the identity key of every pool), and lemmas about that identity |
| `lists.dfy` | `Lists` | append-if-absent (`in_array` then `[] =`) and duplicate-freedom |
| `link.dfy` | `Links` | `Link` as an immutable datatype |
| `page.dfy`, `site.dfy` | `Pages`, `Sites` | the classes `Page` and `Site`, with `setUrl`, `getUrl` and the edge lists |
| `page_factory.dfy`, `site_factory.dfy`, `link_factory.dfy` | `PageFactories`, `SiteFactories`, `LinkFactories` | the three pools, as classes whose methods update the pool in place |
| `crawl_spec.dfy` | `CrawlSpec` | the crawler's fields as a value and one crawl round as a function; the lemmas about the crawl |
| `crawler.dfy` | `Crawlers` | the class `Crawler`; the `ensures` of each method give its new fields, for the crawl rounds and the href processing as the matching `CrawlSpec` function |

The HTTP client is an oracle `fetch: string -> Response`: a status, a `Content-Type` and the anchors' `href`s in document order. The recursive `crawl()` is a loop of at most `fuel` rounds. `Crawl` reports whether the crawl stopped within them.

Behaviour of the code that a reader might not expect, and that the model keeps:
- Link extraction does not go through the factories. `Crawler.php` works on raw URL strings and never creates a `Page`, `Site` or `Link`; the pools are modelled on their own.
- A host-less href is not resolved as a browser would. The code concatenates the seed's host and the href's path, with no `//`: against the seed `http://example.com/`, the href `/about` becomes `example.com/about`, and `/about?page=2` becomes the same string (`CrawlSpec.RelativeHrefTakesSeedHost`, `CrawlSpec.HostlessHrefDropsQuery`).
- There is no scope filter before fetching: any enqueued URL is fetched. Only the extraction of hrefs is gated on the domain (`CrawlSpec.StepExtractsOnlyHtmlSameDomain`).
- `sameDomain(u, u)` is not always true. A seed that is a bare host such as `example.com` parses to no host on the left and to `example.com` on the right. Such a seed is fetched, but no href of its page is followed (`CrawlSpec.BareHostNotSameDomain`, `CrawlSpec.BareHostSeedCrawledAlone`).

## Model

| member | source | states |
|---|---|---|
| Php.StrPos | src/Crawler.php:91-94 | the result indexes the first occurrence of the needle; `None` means it occurs nowhere |
| Php.Substr | src/Crawler.php:160-168 | the result is the prefix of length `n`, or the whole string when it is shorter |
| Url.SanitizeUrl | src/Page.php:140-149 | the result contains `//`; it equals the input iff the input already contains `//`, and is otherwise `//` followed by the input |
| Url.SanitizeIdempotent | src/Site.php:117-126 | sanitizing twice is the same as sanitizing once |
| Url.ParseUrl | src/Page.php:47-48 | the stand-in for `parse_url` never reports an empty host |
| Url.SplitScheme | src/Page.php:48-49 | a scheme is split off only when it is a scheme word followed by `:`, and the pieces rejoin to the input |
| Url.PathOf | src/Page.php:54 | the stored path is never empty |
| Url.PathOfStartsWithSlash | src/Page.php:54 | for a URL with a host, the stored path starts with `/` |
| Url.Render | src/Page.php:65-73 | the string `getUrl` builds starts with `//` followed by the host |
| Url.RenderParsesBack | src/Page.php:65-73 | for a bare host, a port without `/`, `?`, `#` or `@`, a path that starts with `/` and has no `?` or `#`, and a query without `#`, parsing the `getUrl` string gives back that host, path and query, and the port exactly when `full` |
| Url.IdentityDeterminesFields | src/Page.php:65-73 | two objects whose fields have those shapes and the same `getUrl(true)` have the same host, port, path and query, so among them a pool keyed by that string holds one object per URL |
| Url.ParseRendered | src/Page.php:45-57 | the `//host:port/path?query` string parses to exactly those pieces |
| Url.ParseDropsQuery | src/Crawler.php:147 | appending `?q` to a URL without `?` or `#` only sets the parsed query |
| Url.CanonicalUrl | src/Page.php:65-73 | every identity string starts with `//` and has at least one more character |
| Url.PortOnlyDifference | src/Page.php:65-73 | `getUrl(false)` and `getUrl(true)` agree iff no port is set |
| Url.IdentityIgnoresSchemeCredentialsFragment | src/Page.php:72 | URLs with equal host, port, path and query have one identity, whatever their scheme, credentials and fragment |
| Url.SchemeInsensitive | src/Page.php:45-57 | `w://rest` and `//rest` have one identity for every scheme `w` |
| Url.SchemelessMatchesScheme | src/Page.php:140-149 | a URL without `//`, such as `www.example.com/path`, has the identity of the same URL behind a scheme |
| Url.PartsOfBareHost | src/Page.php:45-57 | a bare host parses to that host, with no path, port, scheme or credentials (so `setUrl` stores the default path `/`) |
| Url.PartsOfBareHostSlash | src/Page.php:45-57 | a bare host followed by `/` is stored as that host with path `/` |
| Url.BareHostDefaultPath | src/Page.php:54 | `example.com` and `example.com/` both have the identity `//example.com/` |
| Lists.AppendIfAbsent | src/Page.php:82-87 | the element is present afterwards; the list is unchanged iff it was present; otherwise it grows by that element at the tail; duplicate-freedom is kept |
| Lists.AppendIfAbsentIdempotent | src/Page.php:106-111 | a repeated insertion changes nothing |
| Links.GettersReturnArguments | src/Link.php:22-66 | the getters return the constructor's arguments, and both `has` predicates hold for every link |
| Links.EqualityIsPairwise | src/Link.php:22-26 | two links are equal iff both ends are equal; `(a, b)` equals `(b, a)` only when `a == b` |
| Pages.Page.constructor | src/Page.php:34-37 | a new page holds what `setUrl(url)` stores, has the canonical identity of `url` and has empty edge lists |
| Pages.Page.SetUrl | src/Page.php:45-57 | the fields hold the parsed pieces, with path `/` by default and no password; `getUrl` then yields the canonical identity of `url` |
| Pages.Page.GetUrl | src/Page.php:65-73 | the result starts with `//` and the host, and `getUrl(false)` is `getUrl(true)` without the port |
| Pages.Page.AddLinksTo | src/Page.php:82-87 | `links_to` becomes the append-if-absent of the link and stays duplicate-free |
| Pages.Page.AddLinkedFrom | src/Page.php:106-111 | `linked_from` becomes the append-if-absent of the link and stays duplicate-free |
| Sites.Site.constructor | src/Site.php:31-34 | a new site holds what `setUrl(url)` stores, has the canonical identity of `url` and an empty `detected_on` |
| Sites.Site.SetUrl | src/Site.php:42-54 | as for `Page`: the parsed pieces, path `/` by default, and the canonical identity of `url` |
| Sites.Site.GetUrl | src/Site.php:61-69 | the result starts with `//` and the host, and `getUrl(false)` is `getUrl(true)` without the port |
| Sites.Site.AddDetectedOn | src/Site.php:78-88 | no change when an entry has the site's `getUrl()`, otherwise the site is appended; the entries stay pairwise distinct by URL |
| PageFactories.PageFactory.constructor | src/PageFactory.php:15 | the pool starts empty |
| PageFactories.PageFactory.NewPage | src/PageFactory.php:25-32 | returns a pooled page with the identity of `new Page(url)`; on a hit the pool is unchanged and the page is an old one; on a miss exactly one fresh page with empty edge lists is appended; URLs stay distinct |
| PageFactories.PageFactory.PageExists | src/PageFactory.php:41-51 | `null` iff no pooled page has the identity of `url`; otherwise the first such page in pool order |
| PageFactories.PageFactory.FirstWithUrl | src/PageFactory.php:44-50 | the scan finds the first page with the given key, or `null` iff there is none |
| PageFactories.PageFactory.AddPage | src/PageFactory.php:59-62 | the page is appended at the tail, so the pool keeps insertion order |
| PageFactories.NewPageTwice | src/PageFactory.php:25-51 | asking twice for one URL yields the same instance, and the pool grows by at most one |
| SiteFactories.SiteFactory.constructor | src/SiteFactory.php:15 | the pool starts empty |
| SiteFactories.SiteFactory.NewSite | src/SiteFactory.php:25-36 | the returned site is pooled with the identity of `url`; a miss appends exactly one fresh site; a given `detected_on` is added under the list's own de-duplication; no other site's list changes; URLs stay distinct |
| SiteFactories.SiteFactory.PooledSite | src/SiteFactory.php:27-30 | the lookup half of `newSite`: an old site on a hit, or one fresh site with an empty list appended on a miss |
| SiteFactories.SiteFactory.Detect | src/SiteFactory.php:31-34 | the second half of `newSite`: without a `detected_on` site nothing changes; with one, the pooled site's list gains it unless an entry already has its `getUrl()`; the pool stays valid |
| SiteFactories.SiteFactory.SiteExists | src/SiteFactory.php:45-55 | `null` iff no pooled site has the identity of `url`; otherwise the first such site in pool order |
| SiteFactories.SiteFactory.FirstWithUrl | src/SiteFactory.php:48-54 | the scan finds the first site with the given key, or `null` iff there is none |
| SiteFactories.SiteFactory.AddSite | src/SiteFactory.php:63-66 | the site is appended at the tail |
| SiteFactories.NewSiteTwice | src/SiteFactory.php:25-55 | asking twice for one URL yields the same instance, and the pool grows by at most one |
| LinkFactories.LinkFactory.constructor | src/LinkFactory.php:8 | the pool starts empty |
| LinkFactories.LinkFactory.NewLink | src/LinkFactory.php:18-25 | the result is the link between the two pages' `getUrl()`s; the pool becomes its append-if-absent and still holds each ordered pair once |
| LinkFactories.LinkFactory.LinkExists | src/LinkFactory.php:35-43 | `None` iff that ordered pair is not pooled; otherwise the pooled link with those ends |
| LinkFactories.LinkFactory.AddLink | src/LinkFactory.php:51-54 | the link is appended at the tail |
| LinkFactories.NewLinkTwice | src/LinkFactory.php:18-43 | one pair asked twice gives one link; `(a, b)` and `(b, a)` are two pooled links when the URLs differ; the pool grows by at most two |
| CrawlSpec.Enqueue | src/Crawler.php:175-184 | only the frontier changes, growing at its tail by at most one URL, and afterwards the URL is visited or pending |
| CrawlSpec.RecordBadUrl | src/Crawler.php:79-89 | the key now ends with `previous_url`, its earlier entries are kept in order, the key set gains only that key, and other keys are unchanged |
| CrawlSpec.IsSpecialLink | src/Crawler.php:160-168 | true iff the link starts with `mailto:` or `tel:` |
| CrawlSpec.IsContentTypeHtml | src/Crawler.php:69 | true iff `text/html` occurs somewhere in the `Content-Type` |
| CrawlSpec.SameDomainSpec | src/Crawler.php:96-109 | `sameDomain(a, b)` compares the parsed host of `a` with that of `b`, or of `//b` when `b` has no `//`; an unset host matches only an unset host |
| CrawlSpec.ResolveHref | src/Crawler.php:143-152 | nothing iff the href is special; an href with a truthy host is kept as written |
| CrawlSpec.EnqueueSpec | src/Crawler.php:175-184 | a no-op returning null iff the URL is visited or pending; otherwise an append at the tail returning the new length; the frontier invariant is kept |
| CrawlSpec.ProcessHrefSpec | src/Crawler.php:140-157 | one href appends its resolution to the frontier exactly when it has one and that URL is neither visited nor pending; otherwise it leaves the state alone |
| CrawlSpec.HostlessHrefDropsQuery | src/Crawler.php:147-152 | for an href without a truthy host, `p?q` resolves exactly as `p`: the query is dropped |
| CrawlSpec.ProcessHref | src/Crawler.php:141-156 | a special link changes nothing; any other href has its resolution visited or pending afterwards; only the frontier changes, growing at its tail by at most one URL |
| CrawlSpec.FindHrefs | src/Crawler.php:140-157 | only the frontier changes; the old frontier is a prefix of the new one, which is longer by at most the number of hrefs |
| CrawlSpec.FindHrefsKeepsInv | src/Crawler.php:140-157 | processing a page's hrefs keeps the frontier invariant |
| CrawlSpec.FindHrefsEnqueuesEvery | src/Crawler.php:140-157 | after processing, the resolution of every non-special href of the page is visited or pending, and every URL that was visited or pending still is |
| CrawlSpec.FindHrefsAddsResolvedHrefs | src/Crawler.php:143-153 | every URL added to the frontier resolves one of the page's non-special hrefs, so no `mailto:` or `tel:` href is enqueued as written |
| CrawlSpec.Step | src/Crawler.php:39-75 | a round keeps the start URL and only extends the visited list; a stopping round visits nothing |
| CrawlSpec.Visit | src/Crawler.php:39-55 | the head leaves the frontier and becomes the current URL, the old current URL becomes the previous one, and the head is appended to the visited list |
| CrawlSpec.Check | src/Crawler.php:58-60 | only the ledger changes, and it changes iff the status is not 200; no key is dropped |
| CrawlSpec.Extract | src/Crawler.php:69-75 | a page that is not HTML or not on the seed's domain changes nothing; otherwise only the frontier changes, growing at its tail |
| CrawlSpec.StepKeepsInv | src/Crawler.php:39-77 | a round keeps the frontier invariant: no duplicates in pending or visited, and the two are disjoint |
| CrawlSpec.StepTakesHead | src/Crawler.php:39-55 | a round that goes on takes the frontier's head (FIFO), shifts the previous/current pointers, appends the head to the visited list, and keeps the rest of the frontier ahead of what it discovers |
| CrawlSpec.StepExtendsLedger | src/Crawler.php:58-89 | a round keeps every key of the bad-URL ledger and each key's list as a prefix |
| CrawlSpec.LedgerExtendsTransitive | src/Crawler.php:79-89 | extending the ledger is transitive |
| CrawlSpec.StepRecordsBadUrl | src/Crawler.php:58-60 | a bad URL is recorded iff the status is not 200, keyed by the URL and holding the page crawled before it |
| CrawlSpec.StepEnqueuesEveryHref | src/Crawler.php:69-157 | after a round on an HTML page on the seed's domain, the resolution of every href that is not `mailto:` or `tel:` is visited or pending |
| CrawlSpec.StepExtractsOnlyHtmlSameDomain | src/Crawler.php:69-75 | a page that is not HTML, or not on the seed's domain, adds nothing; what any page adds resolves its own hrefs |
| CrawlSpec.StepStops | src/Crawler.php:39-43 | a stopping round fetches nothing; at most a falsy head leaves the frontier |
| CrawlSpec.StopIsFinal | src/Crawler.php:39-43 | with an empty frontier the crawl has stopped for good and nothing more is visited |
| CrawlSpec.IterateKeeps | src/Crawler.php:76 | what one round keeps, the repeated self-call keeps |
| CrawlSpec.Run | src/Crawler.php:37-77 | the crawl never reassigns the start URL |
| CrawlSpec.RunUnfold | src/Crawler.php:76 | a crawl with rounds left is one round followed, unless it stopped, by the crawl from the new state |
| CrawlSpec.Start | src/Crawler.php:30-35 | the crawl runs with the given URL as its start URL |
| CrawlSpec.RunKeepsInv | src/Crawler.php:37-77 | the frontier invariant holds after any number of rounds |
| CrawlSpec.RunKeepsBadUrls | src/Crawler.php:37-89 | a bad URL recorded before or during a crawl is still in the ledger at its end, with every page it was found on |
| CrawlSpec.RunVisitedGrows | src/Crawler.php:55 | the visited list only grows |
| CrawlSpec.RunVisitsOnce | src/Crawler.php:55 | no URL is fetched twice: the visited list keeps what it had and holds no duplicate |
| CrawlSpec.StartKeepsInv | src/Crawler.php:30-35 | `start` on any crawler that satisfies the frontier invariant keeps it |
| CrawlSpec.SameDomainReflexive | src/Crawler.php:96-109 | `sameDomain(u, u)` holds for every `u` that contains `//` |
| CrawlSpec.BareHostNotSameDomain | src/Crawler.php:101-108 | `sameDomain(h, h)` is false for every bare host `h` |
| CrawlSpec.BareHostSeedCrawledAlone | src/Crawler.php:30-77 | a bare-host seed is fetched and marked visited, no href of it is followed, and the crawl then stops |
| CrawlSpec.RelativeHrefTakesSeedHost | src/Crawler.php:147-152 | for every seed, a root-relative href `/p` without query or fragment, of any number of segments, resolves to the seed's parsed host followed by `/p` |
| CrawlSpec.RootPath | src/Crawler.php:147 | a root-relative href without query or fragment parses to that path and nothing else |
| CrawlSpec.SeedHost | src/Crawler.php:150 | the seed `w://h/` parses to host `h`, so with `RelativeHrefTakesSeedHost` the href `/p` becomes `h/p` |
| CrawlSpec.PrefixBeforeQuery | src/Crawler.php:160-168 | a special-link prefix of `p?q` is already a prefix of `p`, so adding a query does not make an href special |
| Crawlers.Crawler.constructor | src/Crawler.php:17-28 | a new crawler has empty lists and ledger and empty pointers, and satisfies the invariant |
| Crawlers.Crawler.Start | src/Crawler.php:30-35 | the fields end exactly as the `start` function says, the start URL is the given one, and a crawler that satisfied the invariant still does |
| Crawlers.Crawler.Crawl | src/Crawler.php:37-77 | the loop ends in the state of the `crawl` function; it keeps the invariant, keeps what was visited, and visits no URL twice |
| Crawlers.Crawler.CrawlOnce | src/Crawler.php:39-75 | one round moves the fields exactly as `Step` says, including when it stops |
| Crawlers.Crawler.AddBadUrl | src/Crawler.php:79-89 | the ledger becomes `RecordBadUrl` of the old ledger |
| Crawlers.Crawler.AddVisited | src/Crawler.php:111-114 | the URL is appended to the visited list |
| Crawlers.Crawler.FindHrefs | src/Crawler.php:140-157 | the `foreach` over the hrefs moves the fields as the `findHrefs` function says |
| Crawlers.Crawler.ProcessHref | src/Crawler.php:141-156 | one iteration moves the fields as `ProcessHref` says |
| Crawlers.Crawler.DequeueUrl | src/Crawler.php:170-173 | null iff the frontier was empty; otherwise the head, and the old frontier is that head followed by the new one |
| Crawlers.Crawler.EnqueueUrl | src/Crawler.php:175-184 | null and no change iff the URL is visited or pending; otherwise the URL goes to the tail and the new length is returned |

## Left out

- HTTP fetching through Guzzle, its exceptions, and a transport failure with no response are not modelled; `fetch` is an oracle that always answers (src/Crawler.php:26, 48-54).
- HTML parsing with `DOMDocument` is not modelled; a page's hrefs come as a given sequence of strings (src/Crawler.php:129-141).
- `findUrls` is not modelled; no caller uses it (src/Crawler.php:116-125).
- `parse_url` is a simple splitter that does not attempt PHP's edge cases: IPv6 hosts, a `host:port` without `//`, percent-encoding, and `parse_url` returning `false` on malformed input.
- The port is kept as its digit string; `parse_url` turns it into an integer, and no leading zeros are normalised.
- Console output, colours and `print_r` of the ledger are not modelled (src/Crawler.php:40-41, 47, 81, 144, 156).
- The script crawl.php is not part of this model; it calls `logger` and `setCrawlExternal`, which the crawler does not define.
- Crawlers.Crawler.Crawl: runs for at most `fuel` rounds, because the source gives no bound on the number of pages a crawl discovers.
- The `Content-Type` header is assumed present; indexing a missing header is undefined in PHP (src/Crawler.php:56).
- `in_array` and `==` compare loosely in PHP; the model compares strings exactly, which differs only for numeric-looking strings.
- `Page` and `Site` are pooled by URL; `setUrl` on a pooled object could break a pool's distinctness, and no contract covers that case.
- The status code given to `addBadUrl` is only printed, so the model ignores it.
- SiteFactories.NewSiteTwice: states the same-instance property only for calls without a `detected_on` site. This is a limit of proof cost: with two arbitrary `detected_on` sites the frame reasoning over the sites' lists exceeds the verifier's resource bound.
- CrawlSpec.SameDomainReflexive: requires the URL to contain `//`, because the code's `sameDomain` is false for a bare host (CrawlSpec.BareHostNotSameDomain).
- Pages.Page.constructor, Sites.Site.constructor: the default argument `$url = ''` is not modelled; every caller in the code passes a URL (src/Page.php:34, src/Site.php:31).
- Getters (`getPages`, `getSites`, `getLinks`, `getLinksTo`, `getLinkedFrom`, `getDetectedOn`) and `__toString` return a field, or `getUrl(true)`, and carry no contract of their own.
