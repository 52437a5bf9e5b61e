/**
 * `HashSet<WebPage>` under the default comparer, which is URL equality: the
 * set holds at most one page per URL, so it is a map from URL to the page
 * stored for it. `Except` and `Union` with `WebPageUrlComparer` are the
 * report set algebra.
 */
module PageSets {
  import opened Wrappers
  import opened WebPages

  type PageSet = map<string, WebPage>

  /** Every page is stored under its own (non-null) URL. */
  ghost predicate KeyedByUrl(m: PageSet) {
    forall u :: u in m ==> m[u].url == Some(u)
  }

  /** `set.Contains(p)`: some stored page equals `p`. */
  predicate Contains(m: PageSet, p: WebPage) {
    p.url.Some? && p.url.value in m
  }

  /** `set.Add(p)`: a page already stored under the URL is kept, not replaced. */
  function Insert(m: PageSet, p: WebPage): (r: PageSet)
    requires p.url.Some?
    ensures r.Keys == m.Keys + {p.url.value}
    ensures forall u :: u in m ==> r[u] == m[u]
    ensures p.url.value !in m ==> r[p.url.value] == p
    ensures KeyedByUrl(m) ==> KeyedByUrl(r)
  {
    if p.url.value in m then m else m[p.url.value := p]
  }

  /** `first.Except(second, urlComparer)`: the pages of `first` whose URL is not in `second`. */
  function Except(first: PageSet, second: PageSet): (r: PageSet)
    ensures r.Keys == first.Keys - second.Keys
    ensures forall u :: u in r ==> r[u] == first[u]
  {
    map u | u in first && u !in second :: first[u]
  }

  /**
   * `first.Union(second, urlComparer)`: the pages of `first`, then those of
   * `second` whose URL `first` does not have.
   */
  function Union(first: PageSet, second: PageSet): (r: PageSet)
    ensures r.Keys == first.Keys + second.Keys
    ensures forall u :: u in first ==> r[u] == first[u]
    ensures forall u :: u in second && u !in first ==> r[u] == second[u]
  {
    map u | u in first.Keys + second.Keys :: if u in first then first[u] else second[u]
  }

  /** `Contains` is membership up to `WebPage.Equals`, as the default comparer decides it. */
  lemma ContainsIsEqualMember(m: PageSet, p: WebPage)
    requires KeyedByUrl(m) && p.url.Some?
    ensures Contains(m, p) <==> exists q :: q in m.Values && q.Equals(p)
  {
    if Contains(m, p) {
      var q := m[p.url.value];
      assert q in m.Values && q.Equals(p);
    }
  }

  /** `Except` keeps exactly the pages of `first` that no page of `second` equals under the URL comparer. */
  lemma ExceptMatchesComparer(first: PageSet, second: PageSet, p: WebPage)
    requires KeyedByUrl(first) && KeyedByUrl(second)
    ensures p in Except(first, second).Values <==>
              p in first.Values && !exists q :: q in second.Values && UrlEquals(p, q)
  {
    var r := Except(first, second);
    if p in first.Values && !exists q :: q in second.Values && UrlEquals(p, q) {
      var u :| u in first && first[u] == p;
      if u in second {
        assert second[u] in second.Values && UrlEquals(p, second[u]);
      }
      assert r[u] == p;
    }
    if p in r.Values {
      var u :| u in r && r[u] == p;
    }
  }

  /** The two report differences share no URL, and neither shares one with the set it was taken against. */
  lemma ExceptsDisjoint(a: PageSet, b: PageSet)
    ensures Except(a, b).Keys !! Except(b, a).Keys
    ensures Except(a, b).Keys !! b.Keys
  {
  }

  /** A union with the sitemap-only pages covers both sets, and the two parts do not overlap. */
  lemma UnionWithExcept(crawled: PageSet, sitemap: PageSet)
    ensures Union(crawled, Except(sitemap, crawled)).Keys == crawled.Keys + sitemap.Keys
    ensures crawled.Keys !! Except(sitemap, crawled).Keys
    ensures Union(crawled, Except(sitemap, crawled)) == crawled + Except(sitemap, crawled)
  {
    var e := Except(sitemap, crawled);
    var lhs := Union(crawled, e);
    assert forall u :: u in lhs <==> u in crawled + e;
  }

  /** `Union` keeps a page of `second` exactly when no page of `first` equals it under the URL comparer. */
  lemma UnionMatchesComparer(first: PageSet, second: PageSet, p: WebPage)
    requires KeyedByUrl(first) && KeyedByUrl(second)
    ensures p in Union(first, second).Values <==>
              p in first.Values || (p in second.Values && !exists q :: q in first.Values && UrlEquals(p, q))
  {
    var r := Union(first, second);
    if p in r.Values {
      var u :| u in r && r[u] == p;
    }
    if p in first.Values {
      var u :| u in first && first[u] == p;
      assert r[u] == p;
    } else if p in second.Values && !exists q :: q in first.Values && UrlEquals(p, q) {
      var u :| u in second && second[u] == p;
      if u in first {
        assert first[u] in first.Values && UrlEquals(p, first[u]);
      }
      assert r[u] == p;
    }
  }

  /**
   * `ToImmutableSortedSet(WebPageComparer)` drops a page only when the
   * comparer finds it equal to another; pages stored under different URLs
   * never compare equal, so the sorted report keeps every page.
   */
  lemma SortedReportKeepsEveryPage(m: PageSet)
    requires KeyedByUrl(m)
    ensures forall u, v :: u in m && v in m && u != v ==> Compare(m[u], m[v]) != 0
  {
  }
}
