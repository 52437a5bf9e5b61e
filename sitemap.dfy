/**
 * The sitemap half of a crawl: finding the sitemap URL in robots.txt, the
 * node-by-node reading of a sitemap document, and the one level of
 * sitemap-index expansion, each as a function of the oracles.
 */
module Sitemap {
  import opened Wrappers
  import opened Text
  import opened Web
  import opened Scope

  /** `sitemapName` */
  const SitemapToken := "Sitemap:"

  /**
   * `GetSitemapUrl` after the robots.txt fetch. Kept as written: a token at
   * index 0 yields null, and a missing token (index -1) makes the code take
   * `Substring(7)`, which throws when the text is shorter than 7.
   */
  function SitemapUrlIn(robots: Option<string>): (r: Result<Option<string>, Failure>)
    ensures r == Ok(None) <==> IsNullOrWhiteSpace(robots) || IndexOf(robots.value, SitemapToken) == 0
    ensures r.Err? <==> !IsNullOrWhiteSpace(robots) && IndexOf(robots.value, SitemapToken) == -1 && |robots.value| < 7
    ensures r.Err? ==> r.error == OutOfRange
  {
    if IsNullOrWhiteSpace(robots) then Ok(None)
    else
      var text := robots.value;
      var at := IndexOf(text, SitemapToken);
      if at == 0 then Ok(None)
      else if at + |SitemapToken| > |text| then Err(OutOfRange)
      else
        var rest := TrimStart(text[at + |SitemapToken|..], ' ');
        Ok(Some(TrimEnd(Before(rest, '\n'), ' ')))
  }

  /**
   * `v` is the sitemap value `s` starts with: skip the leading spaces, take
   * the line up to the next '\n' (or the end), and drop the spaces that end it.
   */
  ghost predicate IsValueOf(s: string, v: string) {
    exists b: nat, e: nat, n: nat :: ValueAt(s, b, e, n, v)
  }

  /** `IsValueOf` with the positions named: spaces end at `b`, the value at `e`, the line at `n`. */
  ghost predicate ValueAt(s: string, b: nat, e: nat, n: nat, v: string) {
    && b <= e <= n <= |s|
    && (forall k :: 0 <= k < b ==> s[k] == ' ')
    && (b == |s| || s[b] != ' ')
    && v == s[b..e]
    && (forall k :: b <= k < n ==> s[k] != '\n')
    && (n == |s| || s[n] == '\n')
    && (forall k :: e <= k < n ==> s[k] == ' ')
    && (e == b || s[e - 1] != ' ')
  }

  /** The trimming pipeline of `GetSitemapUrl` computes that value. */
  lemma ValueOfLine(s: string)
    ensures IsValueOf(s, TrimEnd(Before(TrimStart(s, ' '), '\n'), ' '))
  {
    var rest := TrimStart(s, ' ');
    var line := Before(rest, '\n');
    var v := TrimEnd(line, ' ');
    var b := |s| - |rest|;
    var n := b + |line|;
    var e := b + |v|;
    assert rest == s[b..];
    assert line == rest[..|line|];
    assert v == line[..|v|];
    assert forall k :: b <= k < n ==> s[k] == rest[k - b] == line[k - b];
    assert forall k :: b <= k < n ==> s[k] != '\n' by {
      forall k | b <= k < n ensures s[k] != '\n' {
        assert line[k - b] in line;
      }
    }
    assert forall k :: e <= k < n ==> s[k] == ' ';
    assert v == s[b..e];
    assert ValueAt(s, b, e, n, v);
  }

  /**
   * When robots.txt is not blank and the token is not at index 0, the result
   * is the value after the token, or after index 7 when the token is absent.
   */
  lemma SitemapUrlShape(text: string)
    requires !IsNullOrWhiteSpace(Some(text))
    requires IndexOf(text, SitemapToken) != 0
    requires SitemapUrlIn(Some(text)).Ok?
    ensures SitemapUrlIn(Some(text)).value.Some?
    ensures IndexOf(text, SitemapToken) > 0 ==>
              IsValueOf(text[IndexOf(text, SitemapToken) + |SitemapToken|..], SitemapUrlIn(Some(text)).value.value)
    ensures IndexOf(text, SitemapToken) == -1 ==> IsValueOf(text[7..], SitemapUrlIn(Some(text)).value.value)
  {
    ValueOfLine(text[IndexOf(text, SitemapToken) + |SitemapToken|..]);
  }

  /** The boundary quirk: a robots.txt that starts with the token yields no sitemap. */
  lemma TokenAtStartIgnored(text: string)
    requires StartsWith(text, SitemapToken)
    ensures SitemapUrlIn(Some(text)) == Ok(None)
  {
    assert OccursAt(text, SitemapToken, 0);
  }

  /**
   * A robots.txt whose first line holds no 'S' and whose second line is
   * "Sitemap: " and the URL yields exactly that URL.
   */
  lemma SecondLineSitemap(agent: string, url: string)
    requires forall k :: 0 <= k < |agent| ==> agent[k] != 'S'
    requires |agent| > 0
    requires url != [] && url[0] != ' ' && url[|url| - 1] != ' ' && '\n' !in url
    ensures SitemapUrlIn(Some(agent + SitemapToken + " " + url + "\n")) == Ok(Some(url))
  {
    var text := agent + SitemapToken + " " + url + "\n";
    var at := |agent|;
    assert text[at..at + 8] == SitemapToken;
    assert OccursAt(text, SitemapToken, at);
    forall k | 0 <= k < at ensures !OccursAt(text, SitemapToken, k) {
      assert text[k] == agent[k];
      assert text[k..k + 8][0] == text[k];
    }
    assert IndexOf(text, SitemapToken) == at;
    var tail := text[at + 8..];
    assert tail == " " + url + "\n";
    assert SkipRun(tail, ' ', 1) == 1;
    var rest := TrimStart(tail, ' ');
    assert rest == url + "\n";
    assert Find(rest, '\n', 0) == |url| by {
      assert rest[|url|] == '\n';
      forall k | 0 <= k < |url| ensures rest[k] != '\n' {
        assert rest[k] == url[k];
      }
    }
    assert Before(rest, '\n') == url;
    TrimEndNoop(url, ' ');
    assert !IsNullOrWhiteSpace(Some(text)) by {
      assert text[at] == 'S';
    }
  }

  /** The index of the first element or failing read at or after `i`; `|nodes|` if there is none. */
  function FirstElement(nodes: seq<XmlNode>, i: nat): (j: nat)
    requires i <= |nodes|
    ensures i <= j <= |nodes|
    ensures forall k :: i <= k < j ==> !nodes[k].Element? && !nodes[k].ReadFailure?
    ensures j < |nodes| ==> nodes[j].Element? || nodes[j].ReadFailure?
    decreases |nodes| - i
  {
    if i == |nodes| || nodes[i].Element? || nodes[i].ReadFailure? then i
    else FirstElement(nodes, i + 1)
  }

  /** The `adding` flag of the second loop, started at `start`, just before node `i`. */
  function Adding(nodes: seq<XmlNode>, start: nat, i: nat): bool
    requires start <= i <= |nodes|
    decreases i - start
  {
    if i == start then false
    else match nodes[i - 1]
      case Element(name) => name == "loc" || Adding(nodes, start, i - 1)
      case EndElement(name) => name != "loc" && Adding(nodes, start, i - 1)
      case _ => Adding(nodes, start, i - 1)
  }

  /** Node `i` lies after an opening `<loc>` with no `</loc>` in between. */
  ghost predicate InsideLoc(nodes: seq<XmlNode>, start: nat, i: nat)
    requires start <= i <= |nodes|
  {
    exists j :: start <= j < i && nodes[j] == Element("loc") &&
      forall k :: j < k < i ==> nodes[k] != EndElement("loc")
  }

  /** The flag is set exactly between a `<loc>` and the next `</loc>`. */
  lemma {:induction false} AddingIsInsideLoc(nodes: seq<XmlNode>, start: nat, i: nat)
    requires start <= i <= |nodes|
    ensures Adding(nodes, start, i) <==> InsideLoc(nodes, start, i)
    decreases i - start
  {
    if i > start {
      AddingIsInsideLoc(nodes, start, i - 1);
      var last := nodes[i - 1];
      if last == Element("loc") {
        assert InsideLoc(nodes, start, i);
      } else if last == EndElement("loc") {
      } else {
        if InsideLoc(nodes, start, i) {
          var j :| start <= j < i && nodes[j] == Element("loc") &&
            forall k :: j < k < i ==> nodes[k] != EndElement("loc");
          assert j != i - 1;
          assert InsideLoc(nodes, start, i - 1);
        }
        if InsideLoc(nodes, start, i - 1) {
          var j :| start <= j < i - 1 && nodes[j] == Element("loc") &&
            forall k :: j < k < i - 1 ==> nodes[k] != EndElement("loc");
          assert forall k :: j < k < i ==> nodes[k] != EndElement("loc");
        }
      }
    }
  }

  /**
   * The page a `<loc>` text becomes: the prefix followed by the absolute path
   * of the trimmed text, the path left out when it is just "/". A text that
   * does not parse leaves `uriLink` null.
   */
  function LocUrl(text: string, prefix: string, env: Environment): (r: Result<string, Failure>)
    ensures r.Ok? ==> StartsWith(r.value, prefix)
    ensures r.Err? <==> env.parseAbsolute(TrimEnd(text, '/')).None?
    ensures r.Ok? ==> var p := env.parseAbsolute(TrimEnd(text, '/')).value.absolutePath;
                      r.value == prefix + (if |p| > 1 then p else "")
    ensures r.Err? ==> r.error == NullReference
  {
    match env.parseAbsolute(TrimEnd(text, '/'))
    case None => Err(NullReference)
    case Some(uri) =>
      var path := if |uri.absolutePath| > 1 then uri.absolutePath else "";
      assert (prefix + path)[..|prefix|] == prefix;
      Ok(prefix + path)
  }

  /** The pages the second loop adds and the exception that stops it, if any. */
  datatype LocScan = LocScan(added: seq<string>, failure: Option<Failure>)

  /** The second loop of `ParseXML`, run over `nodes[start..end]`. */
  function ScanLocs(nodes: seq<XmlNode>, start: nat, end: nat, prefix: string, env: Environment): (s: LocScan)
    requires start <= end <= |nodes|
    ensures s.failure.Some? ==> s.failure.value == XmlReadError || s.failure.value == NullReference
    decreases end - start
  {
    if end == start then LocScan([], None)
    else
      var prev := ScanLocs(nodes, start, end - 1, prefix, env);
      if prev.failure.Some? then prev
      else match nodes[end - 1]
        case ReadFailure => LocScan(prev.added, Some(XmlReadError))
        case Text(v) =>
          if !Adding(nodes, start, end - 1) then prev
          else (match LocUrl(v, prefix, env)
            case Err(f) => LocScan(prev.added, Some(f))
            case Ok(u) => LocScan(prev.added + [u], None))
        case _ => prev
  }

  /** Some text node of `nodes[start..end]` inside `<loc>` becomes the page `u`. */
  ghost predicate LocYields(nodes: seq<XmlNode>, start: nat, end: nat, prefix: string, env: Environment, u: string)
    requires start <= end <= |nodes|
  {
    exists i :: start <= i < end && nodes[i].Text? && Adding(nodes, start, i) &&
      LocUrl(nodes[i].value, prefix, env) == Ok(u)
  }

  /**
   * Every page the loop adds comes from a text node inside `<loc>`, and when no
   * exception stops the loop every such text node adds its page.
   */
  lemma {:induction false} ScanLocsAddsLocTexts(nodes: seq<XmlNode>, start: nat, end: nat, prefix: string, env: Environment, u: string)
    requires start <= end <= |nodes|
    ensures u in ScanLocs(nodes, start, end, prefix, env).added ==> LocYields(nodes, start, end, prefix, env, u)
    ensures ScanLocs(nodes, start, end, prefix, env).failure.None? ==>
              (u in ScanLocs(nodes, start, end, prefix, env).added <==> LocYields(nodes, start, end, prefix, env, u))
    decreases end - start
  {
    if end > start {
      ScanLocsAddsLocTexts(nodes, start, end - 1, prefix, env, u);
      var prev := ScanLocs(nodes, start, end - 1, prefix, env);
      var scan := ScanLocs(nodes, start, end, prefix, env);
      if scan.failure.None? {
        assert prev.failure.None?;
        if i :| start <= i < end && nodes[i].Text? && Adding(nodes, start, i) &&
               LocUrl(nodes[i].value, prefix, env) == Ok(u) {
          if i == end - 1 {
            assert scan.added == prev.added + [u];
          }
        }
      }
    }
  }

  /** Once an exception stops the loop, later nodes change nothing. */
  lemma {:induction false} ScanLocsStops(nodes: seq<XmlNode>, start: nat, mid: nat, end: nat, prefix: string, env: Environment)
    requires start <= mid <= end <= |nodes|
    requires ScanLocs(nodes, start, mid, prefix, env).failure.Some?
    ensures ScanLocs(nodes, start, end, prefix, env) == ScanLocs(nodes, start, mid, prefix, env)
    decreases end - mid
  {
    if end > mid {
      ScanLocsStops(nodes, start, mid, end - 1, prefix, env);
    }
  }

  /** Every page the loop adds lies under the prefix. */
  lemma {:induction false} ScanLocsInScope(nodes: seq<XmlNode>, start: nat, end: nat, prefix: string, env: Environment)
    requires start <= end <= |nodes|
    ensures forall u :: u in ScanLocs(nodes, start, end, prefix, env).added ==> StartsWith(u, prefix)
    decreases end - start
  {
    if end > start {
      ScanLocsInScope(nodes, start, end - 1, prefix, env);
    }
  }

  /** `ParseXML`'s return value and its `isSiteMapIndex` out-parameter. */
  datatype Root = Root(recognised: bool, isIndex: bool)

  /** What `ParseXML` adds to the sitemap set and how it returns. */
  datatype SitemapParse = SitemapParse(added: seq<string>, result: Result<Root, Failure>)

  /**
   * `ParseXML` over the nodes of one document: the first element decides
   * between a sitemap (`urlset`), an index (`sitemapindex`) and no sitemap;
   * then the remaining nodes are scanned for `<loc>` texts.
   */
  function ParseSitemap(nodes: seq<XmlNode>, prefix: string, env: Environment): (p: SitemapParse)
    ensures p.result.Ok? && !p.result.value.recognised ==> p.added == []
    ensures p.result.Ok? && p.result.value.isIndex ==> p.result.value.recognised
    ensures p.result.Err? ==> p.result.error == XmlReadError || p.result.error == NullReference
  {
    var j := FirstElement(nodes, 0);
    if j == |nodes| then SitemapParse([], Ok(Root(true, false)))
    else match nodes[j]
      case Element(name) =>
        if name == "urlset" || name == "sitemapindex" then
          var scan := ScanLocs(nodes, j + 1, |nodes|, prefix, env);
          SitemapParse(scan.added,
            if scan.failure.Some? then Err(scan.failure.value) else Ok(Root(true, name == "sitemapindex")))
        else SitemapParse([], Ok(Root(false, false)))
      case _ => SitemapParse([], Err(XmlReadError))
  }

  /** The first element alone decides the kind of document. */
  lemma FirstElementDecides(nodes: seq<XmlNode>, prefix: string, env: Environment)
    requires FirstElement(nodes, 0) < |nodes|
    ensures var j := FirstElement(nodes, 0);
            var p := ParseSitemap(nodes, prefix, env);
            && (nodes[j] == Element("urlset") && p.result.Ok? ==> p.result.value == Root(true, false))
            && (nodes[j] == Element("sitemapindex") && p.result.Ok? ==> p.result.value == Root(true, true))
            && (nodes[j].Element? && nodes[j].name != "urlset" && nodes[j].name != "sitemapindex" ==>
                  p == SitemapParse([], Ok(Root(false, false))))
            && (nodes[j].ReadFailure? ==> p == SitemapParse([], Err(XmlReadError)))
  {
  }

  /**
   * After the first element, the pages added are exactly the `<loc>` texts
   * (when nothing throws), and all lie under the prefix.
   */
  lemma ParseSitemapAdds(nodes: seq<XmlNode>, prefix: string, env: Environment, u: string)
    ensures u in ParseSitemap(nodes, prefix, env).added ==> StartsWith(u, prefix)
    ensures u in ParseSitemap(nodes, prefix, env).added ==>
              FirstElement(nodes, 0) < |nodes| &&
              LocYields(nodes, FirstElement(nodes, 0) + 1, |nodes|, prefix, env, u)
    ensures var p := ParseSitemap(nodes, prefix, env);
            p.result.Ok? && p.result.value.recognised && FirstElement(nodes, 0) < |nodes| ==>
              (u in p.added <==> LocYields(nodes, FirstElement(nodes, 0) + 1, |nodes|, prefix, env, u))
  {
    var j := FirstElement(nodes, 0);
    if j < |nodes| && nodes[j].Element? && (nodes[j].name == "urlset" || nodes[j].name == "sitemapindex") {
      var scan := ScanLocs(nodes, j + 1, |nodes|, prefix, env);
      assert ParseSitemap(nodes, prefix, env).added == scan.added;
      ScanLocsInScope(nodes, j + 1, |nodes|, prefix, env);
      ScanLocsAddsLocTexts(nodes, j + 1, |nodes|, prefix, env, u);
    }
  }

  /**
   * `ParseXML(url)` for the document the oracle serves at `url`; the reader
   * refuses an empty URL before reading anything.
   */
  function ParseDocument(url: string, prefix: string, env: Environment): SitemapParse {
    if url == [] then SitemapParse([], Err(EmptyUrl))
    else ParseSitemap(env.readXml(url), prefix, env)
  }

  /** Every document named in an index is read without an exception. */
  ghost predicate LeavesParse(index: set<string>, prefix: string, env: Environment) {
    forall k :: k in index ==> ParseDocument(k, prefix, env).result.Ok?
  }

  /** The pages the documents named in an index add. */
  ghost function LeafUrls(index: set<string>, prefix: string, env: Environment): set<string> {
    set k, u | k in index && u in ParseDocument(k, prefix, env).added :: u
  }

  /** The leaves of one more index entry add that entry's pages. */
  lemma LeafUrlsAdd(index: set<string>, k: string, prefix: string, env: Environment)
    ensures LeafUrls(index + {k}, prefix, env) == LeafUrls(index, prefix, env) + Elements(ParseDocument(k, prefix, env).added)
  {
  }

  /** An index with an entry that throws does not parse, however many entries it has besides. */
  lemma LeavesParseMonotone(a: set<string>, b: set<string>, prefix: string, env: Environment)
    requires a <= b
    ensures LeavesParse(b, prefix, env) ==> LeavesParse(a, prefix, env)
  {
  }

  /** More index entries name more pages. */
  lemma LeafUrlsMonotone(a: set<string>, b: set<string>, prefix: string, env: Environment)
    requires a <= b
    ensures LeafUrls(a, prefix, env) <= LeafUrls(b, prefix, env)
  {
  }

  /** The pages the documents of `order` add when read one after another. */
  ghost function DocumentsAdd(order: seq<string>, prefix: string, env: Environment): set<string> {
    if order == [] then {}
    else DocumentsAdd(order[..|order| - 1], prefix, env) + Elements(ParseDocument(order[|order| - 1], prefix, env).added)
  }

  /** Every document of `order` is read without an exception. */
  ghost predicate DocumentsParse(order: seq<string>, prefix: string, env: Environment) {
    order == [] ||
    (DocumentsParse(order[..|order| - 1], prefix, env) && ParseDocument(order[|order| - 1], prefix, env).result.Ok?)
  }

  /**
   * Reading the documents of `all` in turn stops at the one at `i`: the
   * index `all` lists does not parse, and the pages added so far are among
   * those it names.
   */
  lemma IndexStops(all: seq<string>, i: nat, prefix: string, env: Environment)
    requires i < |all|
    requires !DocumentsParse(all[..i + 1], prefix, env)
    ensures !LeavesParse(Elements(all), prefix, env)
    ensures DocumentsAdd(all[..i + 1], prefix, env) <= LeafUrls(Elements(all), prefix, env)
  {
    assert Elements(all[..i + 1]) <= Elements(all) by {
      forall x | x in all[..i + 1] ensures x in all {
      }
    }
    DocumentsInAnyOrder(all[..i + 1], prefix, env);
    LeafUrlsMonotone(Elements(all[..i + 1]), Elements(all), prefix, env);
    LeavesParseMonotone(Elements(all[..i + 1]), Elements(all), prefix, env);
  }

  /** Once every document is read, the order they were read in does not matter. */
  lemma IndexesDone(all: seq<string>, prefix: string, env: Environment)
    requires DocumentsParse(all[..|all|], prefix, env)
    ensures LeavesParse(Elements(all), prefix, env)
    ensures DocumentsAdd(all[..|all|], prefix, env) == LeafUrls(Elements(all), prefix, env)
  {
    assert all[..|all|] == all;
    DocumentsInAnyOrder(all, prefix, env);
  }

  /**
   * Reading the documents in any order adds the pages `LeafUrls` names, and
   * succeeds exactly when `LeavesParse` holds.
   */
  lemma {:induction false} DocumentsInAnyOrder(order: seq<string>, prefix: string, env: Environment)
    ensures DocumentsAdd(order, prefix, env) == LeafUrls(Elements(order), prefix, env)
    ensures DocumentsParse(order, prefix, env) <==> LeavesParse(Elements(order), prefix, env)
    decreases |order|
  {
    if order != [] {
      var n := |order| - 1;
      DocumentsInAnyOrder(order[..n], prefix, env);
      assert order == order[..n] + [order[n]];
      ElementsAppend(order[..n], order[n]);
      LeafUrlsAdd(Elements(order[..n]), order[n], prefix, env);
    } else {
      assert Elements(order) == {};
    }
  }

  /**
   * The result of the sitemap step: whether it returns normally and, when it
   * does, the sitemap URLs after it (when it throws, `urls` bounds them).
   */
  datatype Resolution = Resolution(urls: set<string>, ok: bool)

  /**
   * `GetAllLinksFromSitemap` from sitemap URLs `before`: find the sitemap in
   * robots.txt, parse it, and for an index replace the set by what the
   * documents it names add.
   */
  ghost function SitemapPages(before: set<string>, prefix: string, env: Environment): Resolution {
    match TextSource(Get(env, prefix + "/robots.txt"))
    case Err(_) => Resolution(before, false)
    case Ok(robots) =>
      match SitemapUrlIn(robots)
      case Err(_) => Resolution(before, false)
      case Ok(None) => Resolution(before, true)
      case Ok(Some(url)) =>
        var p := ParseDocument(url, prefix, env);
        var after := before + Elements(p.added);
        if p.result.Err? then Resolution(after, false)
        else if !p.result.value.isIndex then Resolution(after, true)
        else Resolution(LeafUrls(after, prefix, env), LeavesParse(after, prefix, env))
  }

  /** Starting from an empty set, every sitemap URL the step yields lies under the prefix. */
  lemma SitemapPagesInScope(prefix: string, env: Environment)
    ensures forall u :: u in SitemapPages({}, prefix, env).urls ==> StartsWith(u, prefix)
  {
    forall u | u in SitemapPages({}, prefix, env).urls ensures StartsWith(u, prefix) {
      var robots := TextSource(Get(env, prefix + "/robots.txt"));
      var url := SitemapUrlIn(robots.value).value.value;
      var p := ParseDocument(url, prefix, env);
      if u in p.added {
        ParseSitemapAdds(env.readXml(url), prefix, env, u);
      } else {
        var k :| k in Elements(p.added) && u in ParseDocument(k, prefix, env).added;
        ParseSitemapAdds(env.readXml(k), prefix, env, u);
      }
    }
  }

  /**
   * A robots.txt of one seven-character line without the token names the
   * empty URL: `Substring(7)` of it is empty.
   */
  lemma ShortLineNamesEmptyUrl(line: string)
    requires |line| == 7 && !IsWhiteSpace(line[0])
    ensures SitemapUrlIn(Some(line)) == Ok(Some(""))
  {
    assert !IsNullOrWhiteSpace(Some(line)) by { assert !IsWhiteSpace(line[0]); }
    assert IndexFrom(line, SitemapToken, 0) == -1;
    assert line[7..] == [];
    assert TrimStart([], ' ') == [];
    assert Before([], '\n') == [];
    assert TrimEnd([], ' ') == [];
  }

  /**
   * With such a robots.txt the sitemap step throws, since the reader refuses
   * an empty URL, and no sitemap URL is collected.
   */
  lemma ShortRobotsNamesEmptyUrl(line: string, prefix: string, env: Environment)
    requires |line| == 7 && !IsWhiteSpace(line[0])
    requires TextSource(Get(env, prefix + "/robots.txt")) == Ok(Some(line))
    ensures SitemapPages({}, prefix, env) == Resolution({}, false)
  {
    ShortLineNamesEmptyUrl(line);
    assert ParseDocument("", prefix, env) == SitemapParse([], Err(EmptyUrl));
    assert Elements([]) == {};
  }
}
