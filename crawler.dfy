/**
 * `LinksSearcher`: the session that crawls one site from a seed link, reads
 * its sitemap, and reports the difference between the two sets of pages.
 */
module Crawler {
  import opened Wrappers
  import opened Text
  import opened WebPages
  import opened PageSets
  import opened Web
  import opened Scope
  import opened Sitemap
  import opened CrawlSpec

  /** The exception `CrawlSiteLinks` lets out for one raised inside it. */
  function Surfaced(f: Failure): (g: Failure)
    ensures g != Aggregate
    ensures f == Aggregate ==> g == CustomEncodings
    ensures f != Aggregate ==> g == f
  {
    if f == Aggregate then CustomEncodings else f
  }

  /** The pages of `site` not crawled yet. */
  ghost function Unvisited(site: set<string>, keys: set<string>): nat {
    |site - keys|
  }

  /**
   * One visit makes progress: either a page of `site` is crawled (fewer
   * remain), or nothing is crawled and the visited link leaves the pending
   * links `waiting`.
   */
  lemma VisitDecreases(site: set<string>, keys: set<string>, keys': set<string>, t: string,
                       link: string, waiting: set<string>, next: set<string>)
    requires link in waiting
    requires (t in site && t !in keys && keys' == keys + {t}) || (keys' == keys && next == waiting - {link})
    ensures Unvisited(site, keys') < Unvisited(site, keys) || (keys' == keys && |next| < |waiting|)
  {
    if t in site && t !in keys && keys' == keys + {t} {
      assert site - keys == (site - keys') + {t};
    } else {
      assert waiting == next + {link};
    }
  }

  /** `HashSet.ToArray()`: the elements of `s`, each once, in an unspecified order. */
  method ToArray(s: set<string>) returns (q: seq<string>)
    ensures Elements(q) == s
    ensures |q| == |s|
  {
    q := [];
    var rest := s;
    while rest != {}
      invariant Elements(q) + rest == s && Elements(q) !! rest
      invariant |q| + |rest| == |s|
      decreases rest
    {
      var x :| x in rest;
      ElementsAppend(q, x);
      q := q + [x];
      rest := rest - {x};
    }
  }

  /**
   * What `ParseHtmlForLinks` returns for the page of `t`, when its fetch does
   * not throw: it fails exactly when the page does, and otherwise adds the
   * page's links.
   */
  lemma MatchedLinks(t: string, pending: set<string>, r: Result<set<string>, Failure>, prefix: string, env: Environment)
    requires !VisitOf(t, env).Abort?
    requires var v := VisitOf(t, env);
             && (!(v.Html? && v.text != []) ==> r == Ok(pending))
             && (v.Html? && v.text != [] ==>
                   (r.Ok? <==> AllCandidates(v.hrefs, prefix, env)) &&
                   (r.Ok? ==> r.value == pending + Candidates(v.hrefs, prefix, env)))
    ensures r.Ok? <==> !PageFails(t, prefix, env)
    ensures r.Ok? ==> r.value == pending + Links(t, prefix, env)
  {
  }

  class LinksSearcher {
    /** The HTTP client, URI parser and XML reader the session talks to. */
    const env: Environment
    /** A finite set holding every URL whose fetch would be recorded. */
    ghost const site: set<string>

    var initialLink: Option<Uri>
    var initialLinkPath: Option<string>
    var crawledLinks: PageSet
    var sitemapLinks: PageSet
    var canPrint: bool
    /** Milliseconds the shared `Stopwatch` has run; it is never reset. */
    var stopwatch: nat
    /** The URLs `GetHtmlSource` has fetched, in order. */
    ghost var pageFetches: seq<string>

    ghost predicate Valid()
      reads this
    {
      && (forall u :: Records(VisitOf(u, env)) ==> u in site)
      && KeyedByUrl(crawledLinks)
      && KeyedByUrl(sitemapLinks)
      && crawledLinks.Values !! sitemapLinks.Values
    }

    /** `stopwatch.ElapsedMilliseconds` */
    function Reading(): int64
      reads this
    {
      Millis(stopwatch)
    }

    /** `new LinksSearcher()` talking to `env`. */
    constructor (env: Environment, ghost site: set<string>)
      requires forall u :: Records(VisitOf(u, env)) ==> u in site
      ensures Valid()
      ensures this.env == env && this.site == site
      ensures initialLink == None && initialLinkPath == None
      ensures crawledLinks == map[] && sitemapLinks == map[]
      ensures !canPrint && stopwatch == 0 && pageFetches == []
    {
      this.env := env;
      this.site := site;
      initialLink := None;
      initialLinkPath := None;
      crawledLinks := map[];
      sitemapLinks := map[];
      canPrint := false;
      stopwatch := 0;
      pageFetches := [];
    }

    /** `Clear`: forget the seed and both page sets, and forbid reports. */
    method Clear()
      requires Valid()
      modifies this
      ensures Valid()
      ensures initialLink == None && initialLinkPath == None
      ensures crawledLinks == map[] && sitemapLinks == map[] && !canPrint
      ensures stopwatch == old(stopwatch) && pageFetches == old(pageFetches)
    {
      initialLink := None;
      initialLinkPath := None;
      crawledLinks := map[];
      sitemapLinks := map[];
      canPrint := false;
    }

    /**
     * `SetLink`: parse the seed link (a failed parse leaves `initialLink`
     * null), check its scheme, and derive the origin prefix.
     */
    method SetLink(inputLink: string) returns (r: Outcome<Failure>)
      requires Valid()
      modifies this
      ensures Valid()
      ensures initialLink == env.parseAbsolute(inputLink)
      ensures initialLink.None? ==> r == Fail(InvalidLink)
      ensures initialLink.Some? && !CheckLinkScheme(initialLink.value) ==> r == Fail(UnsupportedScheme)
      ensures initialLink.Some? && CheckLinkScheme(initialLink.value) ==> r == Pass
      ensures r.Pass? ==> initialLinkPath == Some(Prefix(initialLink.value))
      ensures r.Fail? ==> initialLinkPath == old(initialLinkPath)
      ensures crawledLinks == old(crawledLinks) && sitemapLinks == old(sitemapLinks)
      ensures canPrint == old(canPrint) && stopwatch == old(stopwatch) && pageFetches == old(pageFetches)
    {
      initialLink := env.parseAbsolute(inputLink);
      if initialLink.None? {
        return Fail(InvalidLink);
      }
      if !CheckLinkScheme(initialLink.value) {
        return Fail(UnsupportedScheme);
      }
      initialLinkPath := Some(Prefix(initialLink.value));
      return Pass;
    }

    /**
     * `GetHtmlSource` with `AddBadWebPagesToHashSet`: fetch `url` and record
     * it with the stopwatch reading when it is HTML, or with -500 when the
     * server fails; every other response records nothing.
     */
    method GetHtmlSource(url: string) returns (v: Visit)
      requires Valid()
      modifies this
      ensures Valid()
      ensures v == VisitOf(url, env)
      ensures stopwatch == old(stopwatch) + env.issueTime(url)
      ensures pageFetches == old(pageFetches) + [url]
      ensures crawledLinks.Keys == old(crawledLinks.Keys) + (if Records(v) then {url} else {})
      ensures forall u :: u in old(crawledLinks) ==> crawledLinks[u] == old(crawledLinks[u])
      ensures Records(v) && url !in old(crawledLinks) ==>
                fresh(crawledLinks[url]) && crawledLinks[url].accessTime == RecordedTime(v, Reading())
      ensures sitemapLinks == old(sitemapLinks) && canPrint == old(canPrint)
      ensures initialLink == old(initialLink) && initialLinkPath == old(initialLinkPath)
    {
      stopwatch := stopwatch + env.issueTime(url);
      pageFetches := pageFetches + [url];
      var accessTime := Millis(stopwatch);
      v := Classify(Get(env, url));
      if v.Html? {
        var page := new WebPage(Some(url), accessTime);
        crawledLinks := Insert(crawledLinks, page);
      } else if v.ServerError? {
        var page := new WebPage(Some(url), -InternalServerError as int64);
        crawledLinks := Insert(crawledLinks, page);
      }
    }

    /**
     * `ProcessMatchedLinks`: add the normalised form of every matched href
     * to the pending links; an href whose resolution fails throws.
     */
    method ProcessMatchedLinks(hrefs: seq<string>, pending: set<string>) returns (r: Result<set<string>, Failure>)
      requires initialLinkPath.Some?
      ensures r.Ok? <==> AllCandidates(hrefs, initialLinkPath.value, env)
      ensures r.Ok? ==> r.value == pending + Candidates(hrefs, initialLinkPath.value, env)
      ensures r.Ok? ==> forall l :: l in r.value - pending ==> !EndsWith(l, '/')
      ensures r.Err? ==> r.error == NullReference
    {
      var prefix := initialLinkPath.value;
      var links := pending;
      for i := 0 to |hrefs|
        invariant AllCandidates(hrefs[..i], prefix, env)
        invariant links == pending + Candidates(hrefs[..i], prefix, env)
      {
        var c := Candidate(hrefs[i], prefix, env);
        CandidatesStep(hrefs, i, prefix, env);
        if c.Err? {
          return Err(c.error);
        }
        links := links + {c.value};
      }
      assert hrefs[..|hrefs|] == hrefs;
      CandidatesTrimmed(hrefs, prefix, env);
      return Ok(links);
    }

    /** `ParseHtmlForLinks`: only a non-empty HTML body contributes links. */
    method ParseHtmlForLinks(v: Visit, pending: set<string>) returns (r: Result<set<string>, Failure>)
      requires initialLinkPath.Some?
      ensures !(v.Html? && v.text != []) ==> r == Ok(pending)
      ensures v.Html? && v.text != [] ==>
                (r.Ok? <==> AllCandidates(v.hrefs, initialLinkPath.value, env)) &&
                (r.Ok? ==> r.value == pending + Candidates(v.hrefs, initialLinkPath.value, env))
      ensures r.Err? ==> r.error == NullReference
    {
      if v.Html? && v.text != [] {
        r := ProcessMatchedLinks(v.hrefs, pending);
      } else {
        r := Ok(pending);
      }
    }

    /**
     * A crawled page added since the crawled set was `c0` came through the
     * scope filter, was recorded by its fetch, and holds the measurement
     * that fetch records.
     */
    ghost predicate NewPage(u: string, accessTime: int64, prefix: string, reading: int64) {
      && !EndsWith(u, '/')
      && (!EndsWith(prefix, '/') ==> StartsWith(u, prefix))
      && Records(VisitOf(u, env))
      && (VisitOf(u, env).Html? ==> 0 <= accessTime <= reading)
      && (VisitOf(u, env).ServerError? ==> accessTime == -500)
    }

    /** The crawled set has grown from `c0`: old entries are kept and every new one is a `NewPage`. */
    ghost predicate GrownFrom(c0: PageSet, prefix: string)
      reads this, crawledLinks.Values
    {
      && (forall u :: u in c0 ==> u in crawledLinks && crawledLinks[u] == c0[u])
      && (forall u :: u in crawledLinks && u !in c0 ==> NewPage(u, crawledLinks[u].accessTime, prefix, Reading()))
    }

    /**
     * The fetches since the log was `log0` went to pages not crawled in `c0`,
     * and a page whose fetch is recorded was fetched once and is crawled.
     */
    ghost predicate FetchedOnce(c0: set<string>, log0: seq<string>)
      reads this
    {
      && log0 <= pageFetches
      && (forall i :: |log0| <= i < |pageFetches| ==> pageFetches[i] !in c0)
      && (forall i :: |log0| <= i < |pageFetches| && Records(VisitOf(pageFetches[i], env)) ==> pageFetches[i] in crawledLinks)
      && (forall i, j :: |log0| <= i < j < |pageFetches| && Records(VisitOf(pageFetches[i], env)) ==>
            pageFetches[j] != pageFetches[i])
    }

    /**
     * `GetHtmlSource` on a filtered link not crawled yet: the page it records,
     * if any, is a `NewPage`, and the fetch log keeps `FetchedOnce`.
     */
    method FetchPage(target: string, ghost c0: PageSet, ghost log0: seq<string>) returns (v: Visit)
      requires Valid() && initialLinkPath.Some?
      requires target !in crawledLinks
      requires !EndsWith(target, '/') && (!EndsWith(initialLinkPath.value, '/') ==> StartsWith(target, initialLinkPath.value))
      requires GrownFrom(c0, initialLinkPath.value) && FetchedOnce(c0.Keys, log0)
      modifies this
      ensures Valid()
      ensures initialLink == old(initialLink) && initialLinkPath == old(initialLinkPath)
      ensures sitemapLinks == old(sitemapLinks) && canPrint == old(canPrint)
      ensures v == VisitOf(target, env)
      ensures crawledLinks.Keys == old(crawledLinks.Keys) + (if Records(v) then {target} else {})
      ensures GrownFrom(c0, initialLinkPath.value) && FetchedOnce(c0.Keys, log0)
      ensures stopwatch >= old(stopwatch)
    {
      ghost var prefix := initialLinkPath.value;
      ghost var before := crawledLinks;
      ghost var reading := Reading();
      assert forall u :: u in before && u !in c0 ==> NewPage(u, before[u].accessTime, prefix, reading);
      v := GetHtmlSource(target);
      MillisMonotone(old(stopwatch), stopwatch);
      forall u | u in crawledLinks && u !in c0
        ensures NewPage(u, crawledLinks[u].accessTime, prefix, Reading())
      {
        if u != target {
          assert crawledLinks[u] == before[u];
          assert NewPage(u, before[u].accessTime, prefix, reading);
        }
      }
    }

    /**
     * One pass of the `do` loop of `GetLinksFromGivenUrl`: take `link` out of
     * the pending links `waiting`, normalise it, and fetch its page unless it
     * is out of scope or crawled. The crawl stays on track: the new pending
     * links, the crawled set and the order of recording keep `Progress`, and
     * either one more page of `site` is crawled or the pending set shrinks.
     */
    method CrawlLink(link: string, waiting: set<string>, ghost order: seq<string>, ghost seed: string,
                     ghost c0: PageSet, ghost log0: seq<string>)
      returns (r: Result<set<string>, Failure>, ghost order': seq<string>)
      requires Valid() && initialLinkPath.Some?
      requires link in waiting
      requires Progress(order, waiting, crawledLinks.Keys, seed, c0.Keys, initialLinkPath.value, env)
      requires GrownFrom(c0, initialLinkPath.value) && FetchedOnce(c0.Keys, log0)
      modifies this
      ensures Valid()
      ensures initialLink == old(initialLink) && initialLinkPath == old(initialLinkPath)
      ensures sitemapLinks == old(sitemapLinks) && canPrint == old(canPrint)
      ensures GrownFrom(c0, initialLinkPath.value) && FetchedOnce(c0.Keys, log0)
      ensures stopwatch >= old(stopwatch)
      ensures r.Ok? ==> Progress(order', r.value, crawledLinks.Keys, seed, c0.Keys, initialLinkPath.value, env)
      ensures r.Ok? ==> Unvisited(site, crawledLinks.Keys) < Unvisited(site, old(crawledLinks.Keys)) ||
                        (crawledLinks.Keys == old(crawledLinks.Keys) && |r.value| < |waiting|)
      ensures r.Err? ==> CrawlFails(seed, c0.Keys, initialLinkPath.value, env, site)
      ensures r.Err? ==> r.error in {Aggregate, InvalidRequestUri, NullReference}
    {
      var prefix := initialLinkPath.value;
      var accepted := Filter(link, prefix);
      if accepted.None? || accepted.value in crawledLinks {
        ProgressSkip(order, waiting, crawledLinks.Keys, link, seed, c0.Keys, prefix, env);
        return Ok(waiting - {link}), order;
      }
      r, order' := VisitTarget(link, accepted.value, waiting, order, seed, c0, log0);
    }

    /** `CrawlLink` for a link whose normalised form `target` is not crawled yet: fetch it and match its links. */
    method VisitTarget(link: string, target: string, waiting: set<string>, ghost order: seq<string>, ghost seed: string,
                       ghost c0: PageSet, ghost log0: seq<string>)
      returns (r: Result<set<string>, Failure>, ghost order': seq<string>)
      requires Valid() && initialLinkPath.Some?
      requires link in waiting && Filter(link, initialLinkPath.value) == Some(target) && target !in crawledLinks
      requires Progress(order, waiting, crawledLinks.Keys, seed, c0.Keys, initialLinkPath.value, env)
      requires GrownFrom(c0, initialLinkPath.value) && FetchedOnce(c0.Keys, log0)
      modifies this
      ensures Valid()
      ensures initialLink == old(initialLink) && initialLinkPath == old(initialLinkPath)
      ensures sitemapLinks == old(sitemapLinks) && canPrint == old(canPrint)
      ensures GrownFrom(c0, initialLinkPath.value) && FetchedOnce(c0.Keys, log0)
      ensures stopwatch >= old(stopwatch)
      ensures r.Ok? ==> Progress(order', r.value, crawledLinks.Keys, seed, c0.Keys, initialLinkPath.value, env)
      ensures r.Ok? ==> Unvisited(site, crawledLinks.Keys) < Unvisited(site, old(crawledLinks.Keys)) ||
                        (crawledLinks.Keys == old(crawledLinks.Keys) && |r.value| < |waiting|)
      ensures r.Err? ==> CrawlFails(seed, c0.Keys, initialLinkPath.value, env, site)
      ensures r.Err? ==> r.error in {Aggregate, InvalidRequestUri, NullReference}
    {
      ghost var keys := crawledLinks.Keys;
      var v := FetchPage(target, c0, log0);
      r, order' := MatchPageLinks(v, link, target, waiting, order, seed, keys, crawledLinks.Keys, c0.Keys);
    }

    /**
     * The rest of a visit once `GetHtmlSource` has fetched `target` with
     * outcome `v`: an exception ends the crawl, and otherwise the links of the
     * page join the pending links.
     */
    method MatchPageLinks(v: Visit, link: string, target: string, waiting: set<string>, ghost order: seq<string>,
                          ghost seed: string, ghost keys: set<string>, ghost keys': set<string>, ghost c0: set<string>)
      returns (r: Result<set<string>, Failure>, ghost order': seq<string>)
      requires initialLinkPath.Some? && forall u :: Records(VisitOf(u, env)) ==> u in site
      requires v == VisitOf(target, env) && keys' == keys + (if Records(v) then {target} else {})
      requires link in waiting && Filter(link, initialLinkPath.value) == Some(target) && target !in keys
      requires Progress(order, waiting, keys, seed, c0, initialLinkPath.value, env)
      ensures r.Ok? ==> Progress(order', r.value, keys', seed, c0, initialLinkPath.value, env)
      ensures r.Ok? ==> Unvisited(site, keys') < Unvisited(site, keys) || (keys' == keys && |r.value| < |waiting|)
      ensures r.Err? ==> CrawlFails(seed, c0, initialLinkPath.value, env, site)
      ensures r.Err? ==> r.error in {Aggregate, InvalidRequestUri, NullReference}
    {
      var prefix := initialLinkPath.value;
      var pending := waiting - {link};
      order' := order;
      ProgressVisit(order, waiting, keys, link, seed, c0, prefix, env, site);
      if v.Abort? {
        return Err(v.failure), order';
      }
      r := ParseHtmlForLinks(v, pending);
      MatchedLinks(target, pending, r, prefix, env);
      if r.Ok? {
        if Records(v) {
          order' := order + [target];
        }
        VisitDecreases(site, keys, keys', target, link, waiting, r.value);
      }
    }

    /**
     * `GetLinksFromGivenUrl`: the worklist crawl from `pageLink`. Whatever
     * order the pending links are picked in, a crawl that returns normally
     * records exactly `Reach`, and it throws exactly when `CrawlFails`.
     */
    method GetLinksFromGivenUrl(pageLink: string) returns (r: Outcome<Failure>)
      requires Valid()
      requires initialLinkPath.Some?
      modifies this
      ensures Valid()
      ensures initialLink == old(initialLink) && initialLinkPath == old(initialLinkPath)
      ensures r.Pass? <==> !CrawlFails(pageLink, old(crawledLinks.Keys), initialLinkPath.value, env, site)
      ensures r.Pass? ==>
                crawledLinks.Keys == old(crawledLinks.Keys) + Reach(pageLink, old(crawledLinks.Keys), initialLinkPath.value, env, site)
      ensures r.Fail? ==> r.error in {Aggregate, InvalidRequestUri, NullReference}
      ensures GrownFrom(old(crawledLinks), initialLinkPath.value)
      ensures FetchedOnce(old(crawledLinks.Keys), old(pageFetches))
      ensures stopwatch >= old(stopwatch)
      ensures sitemapLinks == old(sitemapLinks) && canPrint == old(canPrint)
    {
      ghost var c0 := crawledLinks;
      ghost var log0 := pageFetches;
      var prefix := initialLinkPath.value;
      var pending: set<string> := {pageLink};
      ghost var order: seq<string> := [];
      ProgressStart(pageLink, c0.Keys, prefix, env);
      assert Progress(order, pending, crawledLinks.Keys, pageLink, c0.Keys, prefix, env);
      assert GrownFrom(c0, prefix);
      assert FetchedOnce(c0.Keys, log0);
      while pending != {}
        invariant Valid()
        invariant initialLinkPath == old(initialLinkPath) && initialLink == old(initialLink)
        invariant sitemapLinks == old(sitemapLinks) && canPrint == old(canPrint)
        invariant Progress(order, pending, crawledLinks.Keys, pageLink, c0.Keys, prefix, env)
        invariant GrownFrom(c0, prefix) && FetchedOnce(c0.Keys, log0)
        invariant stopwatch >= old(stopwatch)
        decreases Unvisited(site, crawledLinks.Keys), |pending|
      {
        var link :| link in pending;
        var step;
        step, order := CrawlLink(link, pending, order, pageLink, c0, log0);
        if step.Err? {
          return Fail(step.error);
        }
        pending := step.value;
      }
      ProgressDone(order, crawledLinks.Keys, pageLink, c0.Keys, prefix, env, site);
      return Pass;
    }

    /** `sitemapLinks.Add(new WebPage(url))`: a set entry keeps its page. */
    method AddSitemapPage(url: string)
      requires Valid()
      modifies this`sitemapLinks
      ensures Valid()
      ensures sitemapLinks.Keys == old(sitemapLinks.Keys) + {url}
      ensures forall u :: u in old(sitemapLinks) ==> sitemapLinks[u] == old(sitemapLinks[u])
      ensures url !in old(sitemapLinks) ==> sitemapLinks[url].accessTime == 0
    {
      var page := new WebPage.FromUrl(Some(url));
      sitemapLinks := Insert(sitemapLinks, page);
    }

    /**
     * The second loop of `ParseXML`, over `nodes[start..]`: add the page of
     * every text inside `<loc>`, stopping at the first exception.
     */
    method ReadLocs(nodes: seq<XmlNode>, start: nat) returns (failure: Option<Failure>)
      requires Valid() && initialLinkPath.Some? && start <= |nodes|
      modifies this`sitemapLinks
      ensures Valid()
      ensures failure == ScanLocs(nodes, start, |nodes|, initialLinkPath.value, env).failure
      ensures sitemapLinks.Keys == old(sitemapLinks.Keys) + Elements(ScanLocs(nodes, start, |nodes|, initialLinkPath.value, env).added)
      ensures forall u :: u in old(sitemapLinks) ==> sitemapLinks[u] == old(sitemapLinks[u])
      ensures forall u :: u in sitemapLinks && u !in old(sitemapLinks) ==> sitemapLinks[u].accessTime == 0
    {
      var prefix := initialLinkPath.value;
      var i := start;
      var adding := false;
      while i < |nodes|
        invariant start <= i <= |nodes|
        invariant adding == Adding(nodes, start, i)
        invariant ScanLocs(nodes, start, i, prefix, env).failure.None?
        invariant sitemapLinks.Keys == old(sitemapLinks.Keys) + Elements(ScanLocs(nodes, start, i, prefix, env).added)
        invariant Valid()
        invariant forall u :: u in old(sitemapLinks) ==> sitemapLinks[u] == old(sitemapLinks[u])
        invariant forall u :: u in sitemapLinks && u !in old(sitemapLinks) ==>
                    sitemapLinks[u].accessTime == 0
      {
        ghost var added := ScanLocs(nodes, start, i, prefix, env).added;
        var node := nodes[i];
        if node.ReadFailure? {
          ScanLocsStops(nodes, start, i + 1, |nodes|, prefix, env);
          return Some(XmlReadError);
        } else if node.Element? {
          if node.name == "loc" {
            adding := true;
          }
        } else if node.Text? {
          if adding {
            var uriLink := env.parseAbsolute(TrimEnd(node.value, '/'));
            if uriLink.None? {
              ScanLocsStops(nodes, start, i + 1, |nodes|, prefix, env);
              return Some(NullReference);
            }
            var path := if |uriLink.value.absolutePath| > 1 then uriLink.value.absolutePath else "";
            AddSitemapPage(prefix + path);
            ElementsAppend(added, prefix + path);
          }
        } else if node.EndElement? {
          if node.name == "loc" {
            adding := false;
          }
        }
        i := i + 1;
      }
      return None;
    }

    /**
     * `ParseXML`: read the document at `url`. The first element decides the
     * kind of document; after a `urlset` or `sitemapindex` every text inside
     * `<loc>` adds the page prefix + path to the sitemap set. Returns false
     * for a document of another kind; a failing read or an unparsable
     * `<loc>` text throws, leaving the pages added before it.
     */
    method ParseXML(url: string) returns (r: Result<bool, Failure>, isIndex: bool)
      requires Valid() && initialLinkPath.Some?
      modifies this`sitemapLinks
      ensures Valid()
      ensures var p := ParseDocument(url, initialLinkPath.value, env);
              && (r.Ok? <==> p.result.Ok?)
              && (r.Ok? ==> r.value == p.result.value.recognised && isIndex == p.result.value.isIndex)
              && (r.Err? ==> r.error == p.result.error)
              && sitemapLinks.Keys == old(sitemapLinks.Keys) + Elements(p.added)
      ensures forall u :: u in old(sitemapLinks) ==> sitemapLinks[u] == old(sitemapLinks[u])
      ensures forall u :: u in sitemapLinks && u !in old(sitemapLinks) ==>
                sitemapLinks[u].accessTime == 0
    {
      var prefix := initialLinkPath.value;
      isIndex := false;
      if url == [] {
        return Err(EmptyUrl), isIndex;
      }
      var nodes := env.readXml(url);
      var i := 0;
      while i < |nodes|
        invariant i <= |nodes|
        invariant forall k :: 0 <= k < i ==> !nodes[k].Element? && !nodes[k].ReadFailure?
      {
        var node := nodes[i];
        i := i + 1;
        if node.ReadFailure? {
          return Err(XmlReadError), isIndex;
        }
        if node.Element? {
          if node.name == "urlset" {
            isIndex := false;
            break;
          } else if node.name == "sitemapindex" {
            isIndex := true;
            break;
          } else {
            isIndex := false;
            return Ok(false), isIndex;
          }
        }
      }
      var failure := ReadLocs(nodes, i);
      if failure.Some? {
        return Err(failure.value), isIndex;
      }
      return Ok(true), isIndex;
    }

    /**
     * One entry of `ProcessSitemapIndices`: read the sitemap document
     * `indices[i]` after the documents before it. When it throws, the step
     * fails and has added only pages the documents yield.
     */
    method ReadIndexEntry(indices: seq<string>, i: nat) returns (r: Result<bool, Failure>)
      requires Valid() && initialLinkPath.Some? && i < |indices|
      requires DocumentsParse(indices[..i], initialLinkPath.value, env)
      requires sitemapLinks.Keys == DocumentsAdd(indices[..i], initialLinkPath.value, env)
      requires forall u :: u in sitemapLinks ==> sitemapLinks[u].accessTime == 0
      modifies this`sitemapLinks
      ensures Valid()
      ensures r.Ok? ==> DocumentsParse(indices[..i + 1], initialLinkPath.value, env)
      ensures r.Ok? ==> sitemapLinks.Keys == DocumentsAdd(indices[..i + 1], initialLinkPath.value, env)
      ensures r.Err? ==> !LeavesParse(Elements(indices), initialLinkPath.value, env)
      ensures r.Err? ==> sitemapLinks.Keys <= LeafUrls(Elements(indices), initialLinkPath.value, env)
      ensures r.Err? ==> r.error in {XmlReadError, NullReference, EmptyUrl}
      ensures forall u :: u in sitemapLinks ==> sitemapLinks[u].accessTime == 0
    {
      var isIndex;
      r, isIndex := ParseXML(indices[i]);
      assert indices[..i + 1] == indices[..i] + [indices[i]];
      assert indices[..i + 1][..i] == indices[..i];
      if r.Err? {
        IndexStops(indices, i, initialLinkPath.value, env);
      }
    }

    /**
     * `ProcessSitemapIndices`: replace the sitemap set, read as a list of
     * sitemap documents, by the pages those documents add. The documents are
     * taken in an unspecified order; the first one that throws ends the step.
     */
    method ProcessSitemapIndices() returns (r: Outcome<Failure>)
      requires Valid() && initialLinkPath.Some?
      modifies this`sitemapLinks
      ensures Valid()
      ensures r.Pass? <==> LeavesParse(old(sitemapLinks.Keys), initialLinkPath.value, env)
      ensures r.Pass? ==> sitemapLinks.Keys == LeafUrls(old(sitemapLinks.Keys), initialLinkPath.value, env)
      ensures sitemapLinks.Keys <= LeafUrls(old(sitemapLinks.Keys), initialLinkPath.value, env)
      ensures r.Fail? ==> r.error in {XmlReadError, NullReference, EmptyUrl}
      ensures forall u :: u in sitemapLinks ==> sitemapLinks[u].accessTime == 0
    {
      var indices := ToArray(sitemapLinks.Keys);
      sitemapLinks := map[];
      for i := 0 to |indices|
        invariant Valid()
        invariant DocumentsParse(indices[..i], initialLinkPath.value, env)
        invariant sitemapLinks.Keys == DocumentsAdd(indices[..i], initialLinkPath.value, env)
        invariant forall u :: u in sitemapLinks ==> sitemapLinks[u].accessTime == 0
      {
        var parsed := ReadIndexEntry(indices, i);
        if parsed.Err? {
          return Fail(parsed.error);
        }
      }
      IndexesDone(indices, initialLinkPath.value, env);
      return Pass;
    }

    /**
     * `GetAllLinksFromSitemap` with `GetSitemapUrl`: find the sitemap named
     * in robots.txt, read it, and expand it when it is a sitemap index.
     */
    method GetAllLinksFromSitemap() returns (r: Outcome<Failure>)
      requires Valid() && initialLinkPath.Some?
      modifies this`sitemapLinks
      ensures Valid()
      ensures var res := SitemapPages(old(sitemapLinks.Keys), initialLinkPath.value, env);
              && (r.Pass? <==> res.ok)
              && (r.Pass? ==> sitemapLinks.Keys == res.urls)
              && sitemapLinks.Keys <= res.urls
      ensures r.Fail? ==> r.error in {Aggregate, InvalidRequestUri, OutOfRange, XmlReadError, NullReference, EmptyUrl}
      ensures forall u :: u in sitemapLinks ==>
                sitemapLinks[u].accessTime == 0 || (u in old(sitemapLinks) && sitemapLinks[u] == old(sitemapLinks[u]))
    {
      var prefix := initialLinkPath.value;
      var robots := TextSource(Get(env, prefix + "/robots.txt"));
      if robots.Err? {
        return Fail(robots.error);
      }
      var sitemapUrl := SitemapUrlIn(robots.value);
      if sitemapUrl.Err? {
        return Fail(sitemapUrl.error);
      }
      if sitemapUrl.value.None? {
        return Pass;
      }
      var parsed, isIndex := ParseXML(sitemapUrl.value.value);
      if parsed.Err? {
        return Fail(parsed.error);
      }
      if isIndex {
        r := ProcessSitemapIndices();
      } else {
        r := Pass;
      }
    }

    /**
     * The body of the `try` in `CrawlSiteLinks`, on a fresh session whose seed
     * link is set: crawl from the seed, then read the sitemap.
     */
    method ExploreSite() returns (r: Outcome<Failure>)
      requires Valid() && initialLink.Some? && initialLinkPath == Some(Prefix(initialLink.value))
      requires crawledLinks == map[] && sitemapLinks == map[]
      modifies this
      ensures Valid()
      ensures initialLink == old(initialLink) && initialLinkPath == old(initialLinkPath) && canPrint == old(canPrint)
      ensures var prefix := initialLinkPath.value;
              var seed := initialLink.value.originalString;
              && (r.Pass? <==> !CrawlFails(seed, {}, prefix, env, site) && SitemapPages({}, prefix, env).ok)
              && (r.Pass? ==> crawledLinks.Keys == Reach(seed, {}, prefix, env, site))
              && (r.Pass? ==> sitemapLinks.Keys == SitemapPages({}, prefix, env).urls)
              && (forall u :: u in crawledLinks ==> NewPage(u, crawledLinks[u].accessTime, prefix, Reading()))
      ensures r.Fail? ==> r.error in {Aggregate, InvalidRequestUri, NullReference, OutOfRange, XmlReadError, EmptyUrl}
      ensures forall u :: u in sitemapLinks ==> sitemapLinks[u].accessTime == 0
      ensures stopwatch >= old(stopwatch)
    {
      ghost var prefix := initialLinkPath.value;
      var seed := initialLink.value.originalString;
      assert crawledLinks.Keys == {} && sitemapLinks.Keys == {};
      r := GetLinksFromGivenUrl(seed);
      assert forall u :: u in crawledLinks ==> NewPage(u, crawledLinks[u].accessTime, prefix, Reading());
      if r.Fail? {
        return;
      }
      r := GetAllLinksFromSitemap();
    }

    /**
     * `CrawlSiteLinks` with `CrawlPageLinks`: start afresh from the seed link
     * without its trailing slashes, crawl the site, read its sitemap, and
     * allow the reports once both have finished. An aggregate exception
     * leaves as the "custom encodings" argument exception. A null link
     * (`None`) throws at the trim, before anything is cleared.
     */
    method CrawlSiteLinks(webPageUrl: Option<string>) returns (r: Outcome<Failure>)
      requires Valid()
      modifies this
      ensures Valid()
      ensures webPageUrl.None? ==> r == Fail(NullReference) && unchanged(this)
      ensures webPageUrl.Some? ==>
              var link := env.parseAbsolute(TrimEnd(webPageUrl.value, '/'));
              && initialLink == link
              && (link.None? ==> r == Fail(InvalidLink))
              && (link.Some? && !CheckLinkScheme(link.value) ==> r == Fail(UnsupportedScheme))
              && (link.Some? && CheckLinkScheme(link.value) ==>
                    var prefix := Prefix(link.value);
                    var seed := link.value.originalString;
                    && initialLinkPath == Some(prefix)
                    && (r.Pass? <==> !CrawlFails(seed, {}, prefix, env, site) && SitemapPages({}, prefix, env).ok)
                    && (r.Pass? ==> crawledLinks.Keys == Reach(seed, {}, prefix, env, site))
                    && (r.Pass? ==> sitemapLinks.Keys == SitemapPages({}, prefix, env).urls)
                    && (forall u :: u in crawledLinks ==> NewPage(u, crawledLinks[u].accessTime, prefix, Reading())))
      ensures r.Fail? ==> r.error in {InvalidLink, UnsupportedScheme, CustomEncodings, InvalidRequestUri, NullReference, OutOfRange, XmlReadError, EmptyUrl}
      ensures webPageUrl.Some? ==>
              var link := env.parseAbsolute(TrimEnd(webPageUrl.value, '/'));
              link.None? || !CheckLinkScheme(link.value) ==>
                crawledLinks == map[] && sitemapLinks == map[] && initialLinkPath == None
      ensures webPageUrl.Some? ==> forall u :: u in sitemapLinks ==> sitemapLinks[u].accessTime == 0
      ensures webPageUrl.Some? ==> (canPrint <==> r.Pass?)
      ensures stopwatch >= old(stopwatch)
    {
      if webPageUrl.None? {
        return Fail(NullReference);
      }
      var inputLink := TrimEnd(webPageUrl.value, '/');
      Clear();
      r := SetLink(inputLink);
      if r.Fail? {
        assert crawledLinks == map[] && sitemapLinks == map[] && initialLinkPath == None;
        return;
      }
      r := ExploreSite();
      if r.Fail? {
        return Fail(Surfaced(r.error));
      }
      canPrint := true;
    }

    /**
     * The pages `PrintCrawledExceptSitemap` prints: the crawled pages whose
     * URL the sitemap does not have. Before a finished `CrawlSiteLinks` it
     * throws.
     */
    function CrawledExceptSitemap(): (r: Result<PageSet, Failure>)
      reads this
      ensures r.Err? <==> !canPrint
      ensures r.Err? ==> r.error == NotCrawled
      ensures r.Ok? ==> r.value.Keys == crawledLinks.Keys - sitemapLinks.Keys
      ensures r.Ok? ==> forall u :: u in r.value ==> r.value[u] == crawledLinks[u]
    {
      if canPrint then Ok(Except(crawledLinks, sitemapLinks)) else Err(NotCrawled)
    }

    /**
     * The pages `PrintSitemapExceptCrawled` prints: the sitemap pages whose
     * URL the crawl did not record. Before a finished `CrawlSiteLinks` it
     * throws.
     */
    function SitemapExceptCrawled(): (r: Result<PageSet, Failure>)
      reads this
      ensures r.Err? <==> !canPrint
      ensures r.Err? ==> r.error == NotCrawled
      ensures r.Ok? ==> r.value.Keys == sitemapLinks.Keys - crawledLinks.Keys
      ensures r.Ok? ==> forall u :: u in r.value ==> r.value[u] == sitemapLinks[u]
    {
      if canPrint then Ok(Except(sitemapLinks, crawledLinks)) else Err(NotCrawled)
    }

    /**
     * `MeasureLinksUptime`: time a new GET of the page on the shared
     * stopwatch and store what `Uptime` makes of the response; a response
     * that throws leaves the page as it was.
     */
    method MeasureLinksUptime(page: WebPage) returns (r: Outcome<Failure>)
      requires page.url.Some?
      modifies this`stopwatch, page`accessTime
      ensures stopwatch == old(stopwatch) + env.issueTime(page.url.value)
      ensures var t := Uptime(Get(env, page.url.value), old(page.accessTime), Reading());
              && (r.Pass? <==> t.Ok?)
              && (t.Ok? ==> page.accessTime == t.value)
              && (t.Err? ==> page.accessTime == old(page.accessTime) && r.error == t.error)
    {
      stopwatch := stopwatch + env.issueTime(page.url.value);
      var accessTime := Millis(stopwatch);
      var t := Uptime(Get(env, page.url.value), page.accessTime, accessTime);
      if t.Err? {
        return Fail(t.error);
      }
      page.accessTime := t.value;
      return Pass;
    }

    /**
     * The measuring loop of `PrintAllLinksWithUptime` over `pages`, in an
     * unspecified order. `readings` holds, for each page measured, the
     * stopwatch reading its measurement used.
     */
    method MeasurePages(pages: PageSet) returns (r: Outcome<Failure>, ghost readings: map<string, int64>)
      requires KeyedByUrl(pages)
      modifies this`stopwatch, pages.Values
      ensures stopwatch >= old(stopwatch)
      ensures r.Pass? <==> forall u :: u in pages ==> !UptimeFails(Get(env, u))
      ensures readings.Keys <= pages.Keys && (r.Pass? ==> readings.Keys == pages.Keys)
      ensures forall u :: u in readings ==>
                && old(Reading()) <= readings[u] <= Reading()
                && Uptime(Get(env, u), old(pages[u].accessTime), readings[u]) == Ok(pages[u].accessTime)
      ensures forall u :: u in pages && u !in readings ==> pages[u].accessTime == old(pages[u].accessTime)
      ensures r.Fail? ==> r.error in {Aggregate, InvalidRequestUri, NullReference}
    {
      readings := map[];
      var todo := pages.Keys;
      while todo != {}
        invariant todo <= pages.Keys
        invariant stopwatch >= old(stopwatch)
        invariant readings.Keys == pages.Keys - todo
        invariant forall u :: u in todo ==> pages[u].accessTime == old(pages[u].accessTime)
        invariant forall u :: u in readings ==>
                    && !UptimeFails(Get(env, u))
                    && old(Reading()) <= readings[u] <= Reading()
                    && Uptime(Get(env, u), old(pages[u].accessTime), readings[u]) == Ok(pages[u].accessTime)
        decreases todo
      {
        var u :| u in todo;
        ghost var earlier := stopwatch;
        r := MeasureLinksUptime(pages[u]);
        MillisMonotone(earlier, stopwatch);
        UptimeFailsExactly(Get(env, u), old(pages[u].accessTime), Reading());
        if r.Fail? {
          return;
        }
        readings := readings[u := Reading()];
        todo := todo - {u};
      }
      r := Pass;
    }

    /**
     * `PrintAllLinksWithUptime`: measure every sitemap page the crawl did not
     * record, then report those pages together with the crawled ones; the
     * first response that throws ends the report.
     */
    method PrintAllLinksWithUptime() returns (r: Result<PageSet, Failure>)
      requires Valid()
      modifies this`stopwatch, sitemapLinks.Values
      ensures var unmeasured := Except(sitemapLinks, crawledLinks);
              && (r.Ok? <==> forall u :: u in unmeasured ==> !UptimeFails(Get(env, u)))
              && (r.Ok? ==> r.value == Union(crawledLinks, unmeasured))
              && (forall u :: u in unmeasured ==>
                    unmeasured[u].accessTime == old(sitemapLinks[u].accessTime) ||
                    Measured(Get(env, u), old(sitemapLinks[u].accessTime), unmeasured[u].accessTime, old(Reading()), Reading()))
              && (r.Ok? ==> forall u :: u in unmeasured ==>
                    Measured(Get(env, u), old(sitemapLinks[u].accessTime), unmeasured[u].accessTime, old(Reading()), Reading()))
      ensures forall u :: u in crawledLinks ==> crawledLinks[u].accessTime == old(crawledLinks[u].accessTime)
      ensures r.Err? ==> r.error in {Aggregate, InvalidRequestUri, NullReference}
      ensures stopwatch >= old(stopwatch)
    {
      var unmeasured := Except(sitemapLinks, crawledLinks);
      var measured, readings := MeasurePages(unmeasured);
      forall u | u in readings
        ensures Measured(Get(env, u), old(sitemapLinks[u].accessTime), unmeasured[u].accessTime, old(Reading()), Reading())
      {
        assert Uptime(Get(env, u), old(sitemapLinks[u].accessTime), readings[u]) == Ok(unmeasured[u].accessTime);
      }
      if measured.Fail? {
        return Err(measured.error);
      }
      r := Ok(Union(crawledLinks, unmeasured));
    }
  }
}
