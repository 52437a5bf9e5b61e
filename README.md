# LinksSearcher in Dafny

This project models `LinksSearcher` and `WebPage`. They are the core of a console tool that crawls one web site from a seed link and reads the site's sitemap. It then reports:

- the pages found only by crawling;
- the pages found only in the sitemap;
- every page with a response time.

The outside world is a value of type `Web.Environment`, which is supplied once per session. It holds these oracles:

- URI parsing, standing for `Uri.TryCreate` and the `Uri` properties the crawler reads;
- HTTP GET responses, with their status, media type, body and the hrefs the anchor pattern matches in the body;
- the milliseconds the stopwatch runs while a GET is issued;
- the node stream `XmlTextReader` yields for a URL.

Modules, following the program's structure:

- `Wrappers`: `Option`, `Result` and `Outcome`.
- `Text`: the .NET string operations used, with ordinal comparison. These are `TrimEnd`, `TrimStart`, `Split(c)[0]`, `IndexOf` and `IsNullOrWhiteSpace`.
- `WebPages`:
  - the `WebPage` class, with an immutable URL and a mutable `accessTime`;
  - its equality and hash;
  - `WebPageComparer` and `WebPageUrlComparer`.
- `PageSets`: `HashSet<WebPage>` under URL equality. It is a map from URL to the page stored for it, with `Add`, `Except` and `Union`.
- `Web`:
  - the oracles;
  - the exceptions as a `Failure` datatype;
  - the classification of a response by `GetHtmlSource` (`Classify`) and by `MeasureLinksUptime` (`Uptime`);
  - the saturating stopwatch reading.
- `Scope`:
  - the scheme check;
  - the origin prefix;
  - the scope filter at the top of the crawl loop;
  - the normalisation of a matched href.
- `Sitemap`:
  - `GetSitemapUrl`;
  - the two read loops of `ParseXML`;
  - the one level of sitemap-index expansion.
- `CrawlSpec`: what the crawl computes, independently of the order in which pending links are picked.
  - `Reach` is the least set of recorded pages closed under "a recordable page reached through the filter from the seed or from a recorded HTML page".
  - `CrawlFails` says the crawl throws exactly when such a chain reaches a page whose fetch or whose links throw.
  - `Progress` is the invariant of the crawl loop.
- `Crawler`: the `LinksSearcher` class. Its fields are updated in place by methods.
  - The crawl loop keeps `Progress`. It is proved to end with the crawled set equal to `Reach`, or with an exception exactly when `CrawlFails`.
  - The sitemap step is proved equal to the specification function `SitemapPages`. This holds whatever order `HashSet.ToArray` lists the index entries in.
  - The uptime report is proved measured page by page against `Uptime`.

Two oracles and one bound need explaining:

- **Exceptions.** An exception the source would throw is a `Fail`/`Err` result carrying the `Failure` kind. `CrawlSiteLinks` turns an `AggregateException` into the "custom encodings" `ArgumentException`, as its `catch` does.
- **The stopwatch.** It is never reset, so readings are cumulative. They are modelled as the running total of `issueTime` per URL, saturated at `long.MaxValue`.
- **Termination bound.** A ghost set `site` bounds the URLs whose fetch is recorded. It is the termination measure of the crawl loop, together with the size of the pending set.

## Model

| member | source | states |
|---|---|---|
| `Text.TrimEnd` | TestTask_TraineeDotNet_Denis_Bilash/LinksSearcher.cs:153 | The result is a prefix of the input that does not end in the character; everything cut off is that character (every trailing occurrence goes). |
| `Text.TrimStart` | TestTask_TraineeDotNet_Denis_Bilash/LinksSearcher.cs:315 | The result is a suffix of the input that does not start with the character; everything cut off is that character. |
| `Text.Before` | TestTask_TraineeDotNet_Denis_Bilash/LinksSearcher.cs:317 | `Split(c)[0]`: the longest prefix without the separator, followed in the input by the separator unless it is the whole input. |
| `Text.IndexOf` | TestTask_TraineeDotNet_Denis_Bilash/LinksSearcher.cs:309 | The result is -1 or an index where the token occurs, and the token occurs at no earlier index. |
| `WebPages.WebPage.FromUrl` | TestTask_TraineeDotNet_Denis_Bilash/WebPage.cs:12 | `WebPage(url)` has that URL and access time 0. |
| `WebPages.WebPage.constructor` | TestTask_TraineeDotNet_Denis_Bilash/WebPage.cs:14-18 | `WebPage(url, accessTime)` has both given values. |
| `WebPages.WebPage.HashCode` | TestTask_TraineeDotNet_Denis_Bilash/WebPage.cs:19-23 | The hash is 0 for a null URL and the string hash of the URL otherwise. |
| `WebPages.WebPage.Equals` | TestTask_TraineeDotNet_Denis_Bilash/WebPage.cs:30-34 | `Equals(WebPage)`: URL equality with a non-null page. It is characterised by `EqualsIsUrlEquality` and `EqualsIsEquivalence`. |
| `WebPages.WebPage.EqualsObject` | TestTask_TraineeDotNet_Denis_Bilash/WebPage.cs:25-28 | `Equals(object)`: an object that is not a page is unequal, and a page is compared by `Equals(WebPage)`. `EqualsIsUrlEquality` proves the two agree. |
| `WebPages.UrlEquals` | TestTask_TraineeDotNet_Denis_Bilash/WebPage.cs:54-57 | `WebPageUrlComparer.Equals` delegates to `x.Equals(y)`. `UrlComparerAgrees` proves it is URL equality. |
| `WebPages.UrlHashCode` | TestTask_TraineeDotNet_Denis_Bilash/WebPage.cs:59-62 | `WebPageUrlComparer.GetHashCode` delegates to the page's hash. `UrlComparerAgrees` proves it is 0 for a null URL and the string hash otherwise. |
| `WebPages.Compare` | TestTask_TraineeDotNet_Denis_Bilash/WebPage.cs:38-49 | Returns 1 iff x's access time is larger, 0 iff times and URLs are both equal, and -1 in every other case. |
| `WebPages.EqualsIsUrlEquality` | TestTask_TraineeDotNet_Denis_Bilash/WebPage.cs:25-34 | Two pages are equal iff the other is non-null and the URLs agree; the access time is ignored; `Equals(object)` agrees with `Equals(WebPage)`. |
| `WebPages.EqualsIsEquivalence` | TestTask_TraineeDotNet_Denis_Bilash/WebPage.cs:30-34 | Page equality is reflexive, symmetric and transitive. |
| `WebPages.EqualPagesHashEqually` | TestTask_TraineeDotNet_Denis_Bilash/WebPage.cs:19-34 | Equal pages have equal hash codes, whatever string hash is used. |
| `WebPages.UrlComparerAgrees` | TestTask_TraineeDotNet_Denis_Bilash/WebPage.cs:52-62 | `WebPageUrlComparer` decides equality by URL exactly as `Equals` does, and hashes exactly as `GetHashCode` does. |
| `WebPages.CompareReflexive` | TestTask_TraineeDotNet_Denis_Bilash/WebPage.cs:43-46 | Every page compares equal (0) to itself. |
| `WebPages.CompareAntisymmetricOnTimes` | TestTask_TraineeDotNet_Denis_Bilash/WebPage.cs:40-48 | On differing access times, `Compare(x, y) == -Compare(y, x)` and neither is 0. |
| `WebPages.CompareTieQuirk` | TestTask_TraineeDotNet_Denis_Bilash/WebPage.cs:43-48 | Equal access times with different URLs make both comparisons -1, so the comparer is not antisymmetric and not a total order. |
| `PageSets.Insert` | TestTask_TraineeDotNet_Denis_Bilash/LinksSearcher.cs:196 | `HashSet.Add` adds the URL, keeps every stored page (an existing entry is not replaced), stores the new page under a new URL and keeps the set keyed by URL. |
| `PageSets.Except` | TestTask_TraineeDotNet_Denis_Bilash/LinksSearcher.cs:416 | `Except` with the URL comparer holds exactly the URLs of the first set that are not in the second, with the first set's pages. |
| `PageSets.Union` | TestTask_TraineeDotNet_Denis_Bilash/LinksSearcher.cs:481 | `Union` with the URL comparer holds the URLs of both sets; a URL of the first keeps the first set's page, and one of only the second keeps the second's. |
| `PageSets.Contains` | TestTask_TraineeDotNet_Denis_Bilash/LinksSearcher.cs:155 | `HashSet.Contains` under the default comparer is a lookup of the probe's URL. `ContainsIsEqualMember` proves this is membership up to `WebPage.Equals`. |
| `PageSets.ContainsIsEqualMember` | TestTask_TraineeDotNet_Denis_Bilash/LinksSearcher.cs:155 | `crawledLinks.Contains(new WebPage(url))` holds iff some stored page equals the probe under `WebPage.Equals`. |
| `PageSets.ExceptMatchesComparer` | TestTask_TraineeDotNet_Denis_Bilash/LinksSearcher.cs:416 | A page is in the difference iff it is in the first set and no page of the second is URL-equal to it. |
| `PageSets.ExceptsDisjoint` | TestTask_TraineeDotNet_Denis_Bilash/LinksSearcher.cs:460 | The two report differences share no URL, and a difference shares none with the set it was taken against. |
| `PageSets.UnionWithExcept` | TestTask_TraineeDotNet_Denis_Bilash/LinksSearcher.cs:474-481 | The uptime report covers the URLs of both sets, with the crawled pages and the sitemap-only pages kept apart. |
| `PageSets.UnionMatchesComparer` | TestTask_TraineeDotNet_Denis_Bilash/LinksSearcher.cs:481 | A page is in the union iff it is in the first set, or in the second with no URL-equal page in the first. |
| `PageSets.SortedReportKeepsEveryPage` | TestTask_TraineeDotNet_Denis_Bilash/LinksSearcher.cs:482 | Pages under different URLs never compare 0, so sorting the report by `WebPageComparer` drops no page. |
| `Web.Millis` | TestTask_TraineeDotNet_Denis_Bilash/LinksSearcher.cs:179 | The stopwatch reading is non-negative and equals the running total until it would leave the `long` range. |
| `Web.MillisMonotone` | TestTask_TraineeDotNet_Denis_Bilash/LinksSearcher.cs:172-179 | The reading never goes back while the shared stopwatch runs on. |
| `Web.Get` | TestTask_TraineeDotNet_Denis_Bilash/LinksSearcher.cs:176 | `GetAsync` rejects a URL that is not an absolute URI before any request is sent; an absolute one gets the oracle's response. |
| `Web.Classify` | TestTask_TraineeDotNet_Denis_Bilash/LinksSearcher.cs:181-230 | A 2xx text/html response is HTML with its body and hrefs, and another 2xx type is not HTML. Status 500 is a server error, and any other failure status records nothing. No response, or an unreadable body, throws an aggregate exception. A missing Content-Type throws a null reference (`IsHtmlDocument`). A request URI that `GetAsync` rejects throws before any request is sent. |
| `Web.TextSource` | TestTask_TraineeDotNet_Denis_Bilash/LinksSearcher.cs:325-338 | `GetTextSource` returns the body of a 2xx response, and null for any other status. No response throws an aggregate exception, and a rejected request URI throws before any request. |
| `Web.Uptime` | TestTask_TraineeDotNet_Denis_Bilash/LinksSearcher.cs:512-538 | Re-measuring gives the reading for 2xx HTML, and the old value for another 2xx type. It gives -500 for status 500 and -1 for any other failure. No response, a rejected request URI, or a 2xx without Content-Type, throws. |
| `Web.UptimeFailsExactly` | TestTask_TraineeDotNet_Denis_Bilash/LinksSearcher.cs:515-522 | Re-measuring throws exactly for no response, for a rejected request URI and for a 2xx without Content-Type, whatever the reading and old value. |
| `Web.UptimeAgreesWithCrawl` | TestTask_TraineeDotNet_Denis_Bilash/LinksSearcher.cs:520-537 | Re-measuring gives the crawl's recorded value on HTML and on status 500. It keeps the current value on other 2xx types, and gives -1 where the crawl records nothing. |
| `Scope.CheckLinkScheme` | TestTask_TraineeDotNet_Denis_Bilash/LinksSearcher.cs:94-107 | Accepts exactly a non-file URI whose scheme is `http` or `https`. |
| `Scope.Prefix` | TestTask_TraineeDotNet_Denis_Bilash/LinksSearcher.cs:83 | `initialLinkPath` is scheme + `://` + host. `SeedPrefixSafe` proves it is a prefix the filter is idempotent under when the host does not end in `/`. |
| `Scope.Filter` | TestTask_TraineeDotNet_Denis_Bilash/LinksSearcher.cs:139-153 | A link is accepted iff it does not start with `//` and, once a leading `/` is resolved against the prefix, starts with the prefix. An accepted link does not end in `/`, and still starts with the prefix when the prefix does not end in `/`. |
| `Scope.FilterCases` | TestTask_TraineeDotNet_Denis_Bilash/LinksSearcher.cs:139-153 | The three rules case by case. `//` is rejected. `/path` becomes prefix + path, trimmed. Any other link is kept, trimmed, iff it starts with the prefix. |
| `Scope.FilterIdempotent` | TestTask_TraineeDotNet_Denis_Bilash/LinksSearcher.cs:148-153 | Under a non-empty prefix with no leading or trailing `/`, filtering an accepted link again returns it unchanged. |
| `Scope.SeedPrefixSafe` | TestTask_TraineeDotNet_Denis_Bilash/LinksSearcher.cs:83 | An http(s) seed with a non-empty host not ending in `/` gives such a prefix. |
| `Scope.Candidate` | TestTask_TraineeDotNet_Denis_Bilash/LinksSearcher.cs:255-270 | An absolute href becomes its scheme, host and path, and a string that is not a URI is kept. A relative href is resolved against prefix + `/` + the href without leading slashes and becomes the scheme, host and path of the result; when that resolution fails, a null reference is thrown. Every trailing `/` is stripped. |
| `Scope.CandidatesStep` | TestTask_TraineeDotNet_Denis_Bilash/LinksSearcher.cs:253-273 | One more matched href adds its normalised form to the pending links, or throws and makes the whole page throw. |
| `Scope.CandidatesTrimmed` | TestTask_TraineeDotNet_Denis_Bilash/LinksSearcher.cs:265-269 | No normalised link ends in `/`. |
| `Sitemap.SitemapUrlIn` | TestTask_TraineeDotNet_Denis_Bilash/LinksSearcher.cs:304-321 | The result is null iff robots.txt is null or white space, or the token is at index 0. An absent token with text shorter than 7 throws out-of-range, and that is the only exception. |
| `Sitemap.ValueOfLine` | TestTask_TraineeDotNet_Denis_Bilash/LinksSearcher.cs:314-317 | The trim / split / trim pipeline yields the value the text starts with: leading spaces skipped, cut at the first `\n`, trailing spaces dropped. |
| `Sitemap.SitemapUrlShape` | TestTask_TraineeDotNet_Denis_Bilash/LinksSearcher.cs:307-319 | For a non-blank robots.txt without the token at index 0, the URL is that value after the token. When the token is absent, it is the value after index 7. |
| `Sitemap.TokenAtStartIgnored` | TestTask_TraineeDotNet_Denis_Bilash/LinksSearcher.cs:309-311 | A robots.txt that starts with `Sitemap:` yields no sitemap. |
| `Sitemap.SecondLineSitemap` | TestTask_TraineeDotNet_Denis_Bilash/LinksSearcher.cs:307-321 | A robots.txt whose first line has no `S` and whose second line is `Sitemap: <url>` yields exactly that URL. |
| `Sitemap.FirstElement` | TestTask_TraineeDotNet_Denis_Bilash/LinksSearcher.cs:347-367 | The first loop stops at the first element or failing read; everything before it is skipped. |
| `Sitemap.AddingIsInsideLoc` | TestTask_TraineeDotNet_Denis_Bilash/LinksSearcher.cs:374-394 | The `adding` flag is set before a node exactly when an opening `<loc>` precedes it with no `</loc>` in between. |
| `Sitemap.LocUrl` | TestTask_TraineeDotNet_Denis_Bilash/LinksSearcher.cs:383-386 | A `<loc>` text becomes prefix + the absolute path of the trimmed text, the path left out when it is just `/`; so the page starts with the prefix. It throws a null reference exactly when the trimmed text does not parse. |
| `Sitemap.ScanLocs` | TestTask_TraineeDotNet_Denis_Bilash/LinksSearcher.cs:370-396 | The second loop stops only with a failing read or an unparsable `<loc>` text. |
| `Sitemap.ScanLocsAddsLocTexts` | TestTask_TraineeDotNet_Denis_Bilash/LinksSearcher.cs:370-396 | Every page added comes from a text node inside `<loc>`. When the loop does not throw, every such text adds its page. |
| `Sitemap.ScanLocsStops` | TestTask_TraineeDotNet_Denis_Bilash/LinksSearcher.cs:347 | Once a read throws, later nodes change nothing. |
| `Sitemap.ScanLocsInScope` | TestTask_TraineeDotNet_Denis_Bilash/LinksSearcher.cs:384-386 | Every page the loop adds starts with the prefix. |
| `Sitemap.ParseSitemap` | TestTask_TraineeDotNet_Denis_Bilash/LinksSearcher.cs:340-399 | An unrecognised document adds nothing, and an index is a recognised document. The only exceptions are a failing read and an unparsable `<loc>` text. |
| `Sitemap.FirstElementDecides` | TestTask_TraineeDotNet_Denis_Bilash/LinksSearcher.cs:349-366 | `urlset` gives "not an index" and `sitemapindex` gives "index". Any other first element returns false with no additions, and a failing first read throws. |
| `Sitemap.ParseSitemapAdds` | TestTask_TraineeDotNet_Denis_Bilash/LinksSearcher.cs:369-398 | The pages added lie under the prefix and come from `<loc>` texts after the first element. For a recognised document that does not throw, they are all such texts. |
| `Sitemap.LeafUrlsAdd` | TestTask_TraineeDotNet_Denis_Bilash/LinksSearcher.cs:406-409 | One more index entry adds the pages its document yields. |
| `Sitemap.LeavesParseMonotone` | TestTask_TraineeDotNet_Denis_Bilash/LinksSearcher.cs:406-409 | An index with an entry that throws does not parse, however many entries it has besides. |
| `Sitemap.LeafUrlsMonotone` | TestTask_TraineeDotNet_Denis_Bilash/LinksSearcher.cs:406-409 | More index entries name more pages. |
| `Sitemap.IndexStops` | TestTask_TraineeDotNet_Denis_Bilash/LinksSearcher.cs:406-409 | When the document at position i throws, the index does not parse, and the pages added so far are among those the index names. |
| `Sitemap.IndexesDone` | TestTask_TraineeDotNet_Denis_Bilash/LinksSearcher.cs:403-409 | After reading every entry without an exception, the index parses and the pages added are exactly those it names. |
| `Sitemap.DocumentsInAnyOrder` | TestTask_TraineeDotNet_Denis_Bilash/LinksSearcher.cs:403-409 | Reading the index entries in any order adds exactly `LeafUrls` and succeeds exactly when `LeavesParse`, so the order of `ToArray` does not matter. |
| `Sitemap.SitemapPagesInScope` | TestTask_TraineeDotNet_Denis_Bilash/LinksSearcher.cs:276-292 | Starting from an empty set, every sitemap URL the step yields starts with the prefix. |
| `Sitemap.ShortLineNamesEmptyUrl` | TestTask_TraineeDotNet_Denis_Bilash/LinksSearcher.cs:307-319 | A seven-character robots.txt whose first character is not white space and that lacks the token yields the empty sitemap URL (`Substring(7)`). |
| `Sitemap.ShortRobotsNamesEmptyUrl` | TestTask_TraineeDotNet_Denis_Bilash/LinksSearcher.cs:276-292 | With such a robots.txt the sitemap step throws, because `ParseXML` hands the empty URL to `XmlTextReader`, and no sitemap URL is collected. |
| `CrawlSpec.RawHrefRejected` | TestTask_TraineeDotNet_Denis_Bilash/LinksSearcher.cs:262-270 | An href that is not a URI is kept as it is; once it passes the scope filter and is not crawled yet, its fetch is rejected at `GetAsync` and the crawl throws. |
| `CrawlSpec.PendingMonotone` | TestTask_TraineeDotNet_Denis_Bilash/LinksSearcher.cs:166 | More recorded pages leave more links pending and more targets. |
| `CrawlSpec.DerivationWithinClosed` | TestTask_TraineeDotNet_Denis_Bilash/LinksSearcher.cs:134-169 | Every page a possible crawl order records lies in every closed set. |
| `CrawlSpec.DerivationPrefix` | TestTask_TraineeDotNet_Denis_Bilash/LinksSearcher.cs:134-169 | A prefix of a possible crawl order is a possible crawl order. |
| `CrawlSpec.ClosedTakesNext` | TestTask_TraineeDotNet_Denis_Bilash/LinksSearcher.cs:155-166 | A closed set holding the pages recorded so far holds the next page recorded. |
| `CrawlSpec.RecordableClosed` | TestTask_TraineeDotNet_Denis_Bilash/LinksSearcher.cs:196-226 | The set of all recordable pages of the site is closed. |
| `CrawlSpec.DerivationWithinReach` | TestTask_TraineeDotNet_Denis_Bilash/LinksSearcher.cs:134-169 | A possible crawl order records only pages of `Reach`. |
| `CrawlSpec.ReachCharacterised` | TestTask_TraineeDotNet_Denis_Bilash/LinksSearcher.cs:134-169 | A closed set with a possible crawl order is exactly `Reach`, whatever order the links were picked in. |
| `CrawlSpec.ReachClosed` | TestTask_TraineeDotNet_Denis_Bilash/LinksSearcher.cs:155 | `Reach` is itself closed and contains no page crawled before. |
| `CrawlSpec.CrawlDone` | TestTask_TraineeDotNet_Denis_Bilash/LinksSearcher.cs:169 | When every pending link is settled, the pages recorded are exactly `Reach` and the crawl does not fail. |
| `CrawlSpec.CrawlAborts` | TestTask_TraineeDotNet_Denis_Bilash/LinksSearcher.cs:157-166 | A faulty pending link of a possible crawl order makes the crawl fail. |
| `CrawlSpec.DerivationExtend` | TestTask_TraineeDotNet_Denis_Bilash/LinksSearcher.cs:155-166 | Recording a new, recordable target extends a possible crawl order. |
| `CrawlSpec.DerivationInScope` | TestTask_TraineeDotNet_Denis_Bilash/LinksSearcher.cs:148-153 | Every page the crawl records does not end in `/`, and starts with the prefix when the prefix does not end in `/`. |
| `CrawlSpec.ProgressStart` | TestTask_TraineeDotNet_Denis_Bilash/LinksSearcher.cs:131-132 | The crawl starts on track with only the seed pending. |
| `CrawlSpec.ProgressSkip` | TestTask_TraineeDotNet_Denis_Bilash/LinksSearcher.cs:139-155 | Dropping a link that is out of scope or already crawled keeps the crawl on track. |
| `CrawlSpec.PendingAdd` | TestTask_TraineeDotNet_Denis_Bilash/LinksSearcher.cs:166 | Recording a page leaves exactly its links pending in addition. |
| `CrawlSpec.ProgressRecord` | TestTask_TraineeDotNet_Denis_Bilash/LinksSearcher.cs:155-166 | Recording the page of a pending link adds it to the crawl order and its links to the pending set, and keeps the crawl on track. |
| `CrawlSpec.DerivationRecord` | TestTask_TraineeDotNet_Denis_Bilash/LinksSearcher.cs:155-166 | Recording the not-yet-crawled target of a pending link extends the crawl order. |
| `CrawlSpec.RecordKeepsSafe` | TestTask_TraineeDotNet_Denis_Bilash/LinksSearcher.cs:159-166 | Recording a page that does not throw keeps every recorded page non-throwing. |
| `CrawlSpec.PendingAfterRecord` | TestTask_TraineeDotNet_Denis_Bilash/LinksSearcher.cs:137-166 | The links pending after a visit are pending links of the larger record. |
| `CrawlSpec.TargetOfPending` | TestTask_TraineeDotNet_Denis_Bilash/LinksSearcher.cs:136-153 | A pending link that passes the filter names a target. |
| `CrawlSpec.SettledAfterRecord` | TestTask_TraineeDotNet_Denis_Bilash/LinksSearcher.cs:155-166 | After a visit, every pending link of the record is still pending or settled. |
| `CrawlSpec.ProgressAbort` | TestTask_TraineeDotNet_Denis_Bilash/LinksSearcher.cs:157-166 | A pending link whose page throws makes the crawl fail. |
| `CrawlSpec.ProgressDone` | TestTask_TraineeDotNet_Denis_Bilash/LinksSearcher.cs:169 | An on-track crawl with nothing pending has added exactly `Reach` to the pages crawled before, and does not fail. |
| `CrawlSpec.ProgressVisit` | TestTask_TraineeDotNet_Denis_Bilash/LinksSearcher.cs:155-167 | Visiting the target of a pending link either shows the crawl fails or keeps it on track, with or without a new recorded page. |
| `Crawler.Surfaced` | TestTask_TraineeDotNet_Denis_Bilash/LinksSearcher.cs:48-55 | An aggregate exception leaves `CrawlSiteLinks` as "custom encodings"; every other exception leaves unchanged. |
| `Crawler.VisitDecreases` | TestTask_TraineeDotNet_Denis_Bilash/LinksSearcher.cs:134-169 | Each pass crawls one more page of the site or shrinks the pending set, so the loop ends. |
| `Crawler.ToArray` | TestTask_TraineeDotNet_Denis_Bilash/LinksSearcher.cs:403 | `HashSet.ToArray` lists each element of the set exactly once. |
| `Crawler.MatchedLinks` | TestTask_TraineeDotNet_Denis_Bilash/LinksSearcher.cs:232-249 | Matching the links of a fetched page fails exactly when the page throws, and otherwise adds the page's links. |
| `Crawler.LinksSearcher.constructor` | TestTask_TraineeDotNet_Denis_Bilash/LinksSearcher.cs:21-34 | A new session has no seed link, no pages, reports not allowed and a stopwatch at 0. |
| `Crawler.LinksSearcher.Clear` | TestTask_TraineeDotNet_Denis_Bilash/LinksSearcher.cs:60-69 | Both link fields become null, both sets empty and reports are forbidden; the stopwatch is untouched. |
| `Crawler.LinksSearcher.SetLink` | TestTask_TraineeDotNet_Denis_Bilash/LinksSearcher.cs:71-92 | An unparsable link throws "invalid link", and a non-http(s) or file link throws "unsupported scheme". Otherwise the prefix is set to scheme + `://` + host. Nothing else changes. |
| `Crawler.LinksSearcher.GetHtmlSource` | TestTask_TraineeDotNet_Denis_Bilash/LinksSearcher.cs:173-230 | The stopwatch runs for the GET. The page is recorded exactly for HTML and status 500, as a fresh page with the reading or -500. An existing entry is kept. A URL that is not an absolute URI throws at `GetAsync`. |
| `Crawler.LinksSearcher.ProcessMatchedLinks` | TestTask_TraineeDotNet_Denis_Bilash/LinksSearcher.cs:251-274 | Succeeds iff every href normalises. It then adds exactly their normalised forms, none ending in `/`. |
| `Crawler.LinksSearcher.ParseHtmlForLinks` | TestTask_TraineeDotNet_Denis_Bilash/LinksSearcher.cs:232-249 | Only a non-empty HTML body contributes links. |
| `Crawler.LinksSearcher.FetchPage` | TestTask_TraineeDotNet_Denis_Bilash/LinksSearcher.cs:155-165 | A fetch of a filtered, not-yet-crawled link keeps every old entry. Any page it records came through the filter and holds the measurement its fetch records. |
| `Crawler.LinksSearcher.CrawlLink` | TestTask_TraineeDotNet_Denis_Bilash/LinksSearcher.cs:136-167 | One pass of the loop keeps `Progress` and makes progress, or ends the crawl with an exception exactly when the crawl fails. |
| `Crawler.LinksSearcher.VisitTarget` | TestTask_TraineeDotNet_Denis_Bilash/LinksSearcher.cs:155-166 | Fetching and matching a new target keeps `Progress` and makes progress, or shows the crawl fails. |
| `Crawler.LinksSearcher.MatchPageLinks` | TestTask_TraineeDotNet_Denis_Bilash/LinksSearcher.cs:159-166 | After the fetch, an exception shows the crawl fails. Otherwise the page's links join the pending set and the crawl stays on track. |
| `Crawler.LinksSearcher.GetLinksFromGivenUrl` | TestTask_TraineeDotNet_Denis_Bilash/LinksSearcher.cs:126-170 | Returns normally iff the crawl does not fail, and then the crawled set grows by exactly `Reach`. Old entries are kept. Every new page came through the filter with its recorded measurement. A page whose fetch is recorded is fetched once. |
| `Crawler.LinksSearcher.AddSitemapPage` | TestTask_TraineeDotNet_Denis_Bilash/LinksSearcher.cs:384-386 | `sitemapLinks.Add(new WebPage(url))` adds the URL, keeps every stored page, and gives a new page access time 0. |
| `Crawler.LinksSearcher.ReadLocs` | TestTask_TraineeDotNet_Denis_Bilash/LinksSearcher.cs:369-398 | The second read loop adds exactly the pages `ScanLocs` names, and stops with the exception it names. |
| `Crawler.LinksSearcher.ParseXML` | TestTask_TraineeDotNet_Denis_Bilash/LinksSearcher.cs:340-399 | Returns, sets `isSiteMapIndex` and adds pages exactly as `ParseDocument` says; old entries are kept. An empty URL throws at `new XmlTextReader` before anything is read. |
| `Crawler.LinksSearcher.ReadIndexEntry` | TestTask_TraineeDotNet_Denis_Bilash/LinksSearcher.cs:406-409 | One index entry adds its document's pages to those of the entries before it. If it throws, the index does not parse. |
| `Crawler.LinksSearcher.ProcessSitemapIndices` | TestTask_TraineeDotNet_Denis_Bilash/LinksSearcher.cs:401-410 | The sitemap set is replaced by the pages of the documents it named. The step returns normally iff every document parses. Either way only pages those documents yield remain. |
| `Crawler.LinksSearcher.GetAllLinksFromSitemap` | TestTask_TraineeDotNet_Denis_Bilash/LinksSearcher.cs:276-323 | The sitemap step returns normally iff `SitemapPages` says so, and then leaves exactly its URLs. The only exceptions are aggregate, rejected request URI, out-of-range, XML-read, null-reference, and the empty-URL exception of `XmlTextReader`. |
| `Crawler.LinksSearcher.ExploreSite` | TestTask_TraineeDotNet_Denis_Bilash/LinksSearcher.cs:44-46 | On a fresh session, returns normally iff the crawl does not fail and the sitemap step succeeds, and then the two sets are `Reach` and `SitemapPages`. |
| `Crawler.LinksSearcher.CrawlSiteLinks` | TestTask_TraineeDotNet_Denis_Bilash/LinksSearcher.cs:36-58 | A null link throws a null reference and changes nothing. Otherwise the seed has its trailing slashes trimmed; an invalid link or unsupported scheme throws and leaves the session cleared: both sets empty and no prefix. Otherwise it ends normally iff the crawl and sitemap step do, with the crawled set `Reach` and the sitemap set `SitemapPages`. Reports are allowed iff it returned normally. |
| `Crawler.LinksSearcher.CrawledExceptSitemap` | TestTask_TraineeDotNet_Denis_Bilash/LinksSearcher.cs:412-425 | Throws unless reports are allowed; otherwise yields exactly the crawled pages whose URL the sitemap lacks. |
| `Crawler.LinksSearcher.SitemapExceptCrawled` | TestTask_TraineeDotNet_Denis_Bilash/LinksSearcher.cs:456-469 | Throws unless reports are allowed; otherwise yields exactly the sitemap pages whose URL the crawl lacks. |
| `Crawler.LinksSearcher.MeasureLinksUptime` | TestTask_TraineeDotNet_Denis_Bilash/LinksSearcher.cs:512-538 | The stopwatch runs for the GET, and the page's access time becomes what `Uptime` gives for the response, the old value and the reading. A throwing response leaves the page unchanged. |
| `Crawler.LinksSearcher.MeasurePages` | TestTask_TraineeDotNet_Denis_Bilash/LinksSearcher.cs:476-479 | Measuring a page set succeeds iff no page's response throws. Each measured page holds `Uptime` at a reading within the loop's span, and the others are unchanged. |
| `Crawler.LinksSearcher.PrintAllLinksWithUptime` | TestTask_TraineeDotNet_Denis_Bilash/LinksSearcher.cs:471-482 | The sitemap-only pages are re-measured and the report is the crawled pages united with them. It succeeds iff no such page's response throws. Crawled pages keep their crawl measurement. |

## Left out

- Console output is left out because it is formatting only: `PrintWebPages`, the table printing of `PrintAllLinksWithUptime` and the `PrintCrawledExceptSitemap`/`PrintSitemapExceptCrawled` tables, `PrintStats`, and the interactive loop in `Program.cs`. The reports are modelled as the page sets they would print.
- `HttpClient`, `Uri`, `Regex`, `ContentType` and `XmlTextReader` are oracles in `Web.Environment`, not modelled code. The anchor regex is replaced by the list of hrefs it matches in a body. URI parsing is replaced by the properties the crawler reads. The XML reader is replaced by its node stream.
- The network and the clock are deterministic per URL. `get` and `issueTime` are functions of the URL alone, so every request for a URL gets the same response and adds the same whole number of milliseconds to the stopwatch. That covers the re-fetch in `MeasureLinksUptime` and the repeated fetches the crawl makes of a URL it did not record. `Reach`, and the ensures of `GetLinksFromGivenUrl` built on it, rely on this. A site whose answers change between requests, timing jitter and concurrency are not modelled, and blocking `.Result` calls are sequential.
- Strings are sequences of Unicode scalar values with ordinal comparison. A character outside the Basic Multilingual Plane is one element here but two UTF-16 code units in .NET. Culture-sensitive comparison is not modelled, nor is any encoding of the HTTP body.
- Sitemap.SitemapUrlIn: lengths and indices differ from .NET's on robots.txt text with characters outside the Basic Multilingual Plane. This affects the `IndexOf` position, the `Substring(startIndex + 8)` and `Substring(7)` offsets, and the length test that decides the out-of-range exception. For example, four U+1F600 characters give `OutOfRange` here, while .NET sees length 8 and does not throw.
- A request URI is rejected before any request exactly when the URI oracle does not parse it as absolute (`Web.Get`). Other rejections by `HttpClient`, such as a scheme it does not support, are left to the `get` oracle, which may answer `Rejected`. When `GetAsync` throws this way the source never stops its stopwatch; the model still adds `issueTime` to it, which nothing observes because the exception ends the run.
- A malformed Content-Type header is not modelled: `new ContentType(...)` can throw FormatException on one. The oracle gives a media type or none.
- A null link given to `CrawlSiteLinks` is modelled; `Console.ReadLine` returns one at the end of input. It throws a null reference at the trim, before `Clear`, and leaves the session unchanged. A null robots.txt or HTTP body is modelled as `None`. `Crawler.LinksSearcher.MeasureLinksUptime` requires a non-null URL, because every page it is given comes from a set whose pages the model creates with one. An empty sitemap URL is modelled: `new XmlTextReader("")` throws an argument exception (`EmptyUrl`).
- The `InvalidOperationException` guards of `CrawlPageLinks` and `GetSitemapUrl` are not modelled, because the only caller, `CrawlSiteLinks`, reaches them only after `SetLink` succeeded. `ExploreSite` requires that state instead.
- The iteration order of `HashSet` and `ToArray`, and the order `ImmutableSortedSet` produces under the inconsistent comparer, are left unspecified. Only the facts that the sitemap result does not depend on it, and that sorting drops no page (`SortedReportKeepsEveryPage`), are proved.
- Environments with infinitely many recordable URLs are left out. The crawl is modelled with a finite ghost set `site` that holds every URL the oracles would let the crawl record, on the site or off it, whether or not the crawl ever fetches it. Nothing is lost by this: only the URLs a run fetches matter, so any run that ends has an environment that agrees with it on those URLs and meets the bound. Without such a set the source's loop need not end.
- `Crawler.LinksSearcher.GetHtmlSource`: the freshness of a recorded page is stated here. The callers above it promise only its URL and measurement.
- `PrintAllLinksWithUptime` has no `CanPrint` guard in the source, so the model allows it at any time.
