/**
 * What a completed crawl computes, independently of the order in which the
 * pending links are picked: the pages recorded are the least set closed under
 * "a recordable page reached through the filter from the seed or from a
 * recorded HTML page", and the crawl throws exactly when such a chain reaches
 * a page whose fetch or whose links throw.
 */
module CrawlSpec {
  import opened Wrappers
  import opened Text
  import opened Web
  import opened Scope

  /** What the crawl makes of a fetch of `u`. */
  function VisitOf(u: string, env: Environment): Visit {
    Classify(Get(env, u))
  }

  /** The pending links a fetch of `u` contributes: the matched hrefs of a non-empty HTML body. */
  function Links(u: string, prefix: string, env: Environment): set<string> {
    var v := VisitOf(u, env);
    if v.Html? && v.text != [] then Candidates(v.hrefs, prefix, env) else {}
  }

  /** The links that are pending at some point when the pages of `pages` have been recorded. */
  function Pending(pages: set<string>, seed: string, prefix: string, env: Environment): set<string> {
    {seed} + set u, l | u in pages && l in Links(u, prefix, env) :: l
  }

  /** The pages those links lead to once filtered. */
  function Targets(pages: set<string>, seed: string, prefix: string, env: Environment): set<string> {
    set l | l in Pending(pages, seed, prefix, env) && Filter(l, prefix).Some? :: Filter(l, prefix).value
  }

  /**
   * `pages` misses no page the crawl would record: every target not crawled
   * before (`c0`) whose fetch is recorded is in `pages`.
   */
  ghost predicate Closed(pages: set<string>, seed: string, c0: set<string>, prefix: string, env: Environment) {
    forall f :: f in Targets(pages, seed, prefix, env) && f !in c0 && Records(VisitOf(f, env)) ==> f in pages
  }

  /** The pages a crawl records: those in every closed set. `site` bounds the pages that can be recorded. */
  ghost function Reach(seed: string, c0: set<string>, prefix: string, env: Environment, site: set<string>): set<string> {
    set f | f in site && forall pages :: Closed(pages, seed, c0, prefix, env) ==> f in pages
  }

  /**
   * `order` records pages in an order a crawl can: each page is new, is
   * recorded when fetched, and is a target of the seed or of the pages recorded before it.
   */
  ghost predicate Derivation(order: seq<string>, seed: string, c0: set<string>, prefix: string, env: Environment) {
    forall i :: 0 <= i < |order| ==>
      && order[i] !in c0
      && Records(VisitOf(order[i], env))
      && order[i] in Targets(Elements(order[..i]), seed, prefix, env)
  }

  /** A fetch of `u` throws, in `GetHtmlSource` or while its links are matched. */
  predicate PageFails(u: string, prefix: string, env: Environment) {
    var v := VisitOf(u, env);
    v.Abort? || (v.Html? && v.text != [] && !AllCandidates(v.hrefs, prefix, env))
  }

  /** Processing pending link `l` throws. */
  predicate Faulty(l: string, c0: set<string>, prefix: string, env: Environment) {
    Filter(l, prefix).Some? && Filter(l, prefix).value !in c0 && PageFails(Filter(l, prefix).value, prefix, env)
  }

  /** A crawl from `seed` throws somewhere: a pending link of the recorded pages is faulty. */
  ghost predicate CrawlFails(seed: string, c0: set<string>, prefix: string, env: Environment, site: set<string>) {
    exists l :: l in Pending(Reach(seed, c0, prefix, env, site), seed, prefix, env) && Faulty(l, c0, prefix, env)
  }

  /**
   * An href that is no URI is kept as it is, and once it passes the filter
   * its fetch is rejected before any request is sent: a pending link of that
   * kind makes the crawl throw.
   */
  lemma RawHrefRejected(href: string, c0: set<string>, prefix: string, env: Environment)
    requires env.parseReference(href).NotAReference? && !EndsWith(href, '/')
    requires SafePrefix(prefix) && StartsWith(href, prefix) && href !in c0
    ensures Candidate(href, prefix, env) == Ok(href)
    ensures VisitOf(href, env) == Abort(InvalidRequestUri)
    ensures Faulty(href, c0, prefix, env)
  {
    TrimEndNoop(href, '/');
    assert href[0] == prefix[0];
    assert !StartsWith(href, "/");
  }

  /** More recorded pages leave more links pending. */
  lemma PendingMonotone(a: set<string>, b: set<string>, seed: string, prefix: string, env: Environment)
    requires a <= b
    ensures Pending(a, seed, prefix, env) <= Pending(b, seed, prefix, env)
    ensures Targets(a, seed, prefix, env) <= Targets(b, seed, prefix, env)
  {
  }

  /** Every page of a derivation lies in every closed set. */
  lemma {:induction false} DerivationWithinClosed(order: seq<string>, pages: set<string>, seed: string, c0: set<string>,
                                                  prefix: string, env: Environment)
    requires Derivation(order, seed, c0, prefix, env)
    requires Closed(pages, seed, c0, prefix, env)
    ensures Elements(order) <= pages
  {
    if order != [] {
      var n := |order| - 1;
      var init := order[..n];
      DerivationPrefix(order, n, seed, c0, prefix, env);
      DerivationWithinClosed(init, pages, seed, c0, prefix, env);
      ClosedTakesNext(init, order[n], pages, seed, c0, prefix, env);
    }
  }

  /** A prefix of a derivation is a derivation. */
  lemma DerivationPrefix(order: seq<string>, k: nat, seed: string, c0: set<string>, prefix: string, env: Environment)
    requires k <= |order|
    requires Derivation(order, seed, c0, prefix, env)
    ensures Derivation(order[..k], seed, c0, prefix, env)
  {
    var init := order[..k];
    forall i | 0 <= i < k
      ensures init[i] !in c0 && Records(VisitOf(init[i], env)) && init[i] in Targets(Elements(init[..i]), seed, prefix, env)
    {
      assert init[..i] == order[..i] && init[i] == order[i];
    }
  }

  /** A closed set that holds the pages recorded so far holds the next one. */
  lemma ClosedTakesNext(done: seq<string>, next: string, pages: set<string>, seed: string, c0: set<string>,
                        prefix: string, env: Environment)
    requires Elements(done) <= pages
    requires Closed(pages, seed, c0, prefix, env)
    requires next !in c0 && Records(VisitOf(next, env))
    requires next in Targets(Elements(done), seed, prefix, env)
    ensures Elements(done + [next]) <= pages
  {
    PendingMonotone(Elements(done), pages, seed, prefix, env);
  }

  /**
   * The set of all recordable pages is closed, so a page in every closed set
   * is recorded and lies in `site` when `site` bounds the recordable pages.
   */
  lemma RecordableClosed(seed: string, c0: set<string>, prefix: string, env: Environment, site: set<string>)
    requires forall u :: Records(VisitOf(u, env)) ==> u in site
    ensures Closed((set u | u in site && Records(VisitOf(u, env))), seed, c0, prefix, env)
  {
  }

  /** A derivation records only pages of `Reach`. */
  lemma DerivationWithinReach(order: seq<string>, seed: string, c0: set<string>, prefix: string, env: Environment,
                              site: set<string>)
    requires forall u :: Records(VisitOf(u, env)) ==> u in site
    requires Derivation(order, seed, c0, prefix, env)
    ensures Elements(order) <= Reach(seed, c0, prefix, env, site)
  {
    forall f | f in Elements(order) ensures f in Reach(seed, c0, prefix, env, site) {
      forall pages | Closed(pages, seed, c0, prefix, env) ensures f in pages {
        DerivationWithinClosed(order, pages, seed, c0, prefix, env);
      }
      var i :| 0 <= i < |order| && order[i] == f;
      assert Records(VisitOf(f, env));
    }
  }

  /**
   * A closed set with a derivation is exactly `Reach`: whatever order the
   * pending links are picked in, a crawl that does not throw records the same pages.
   */
  lemma ReachCharacterised(order: seq<string>, seed: string, c0: set<string>, prefix: string, env: Environment,
                           site: set<string>)
    requires forall u :: Records(VisitOf(u, env)) ==> u in site
    requires Derivation(order, seed, c0, prefix, env)
    requires Closed(Elements(order), seed, c0, prefix, env)
    ensures Elements(order) == Reach(seed, c0, prefix, env, site)
  {
    DerivationWithinReach(order, seed, c0, prefix, env, site);
    forall f | f in Reach(seed, c0, prefix, env, site) ensures f in Elements(order) {
    }
  }

  /** `Reach` is itself closed and never contains a page crawled before. */
  lemma ReachClosed(order: seq<string>, seed: string, c0: set<string>, prefix: string, env: Environment,
                    site: set<string>)
    requires forall u :: Records(VisitOf(u, env)) ==> u in site
    requires Derivation(order, seed, c0, prefix, env)
    requires Closed(Elements(order), seed, c0, prefix, env)
    ensures Closed(Reach(seed, c0, prefix, env, site), seed, c0, prefix, env)
    ensures Reach(seed, c0, prefix, env, site) !! c0
  {
    ReachCharacterised(order, seed, c0, prefix, env, site);
    forall f | f in Elements(order) ensures f !in c0 {
      var i :| 0 <= i < |order| && order[i] == f;
    }
  }

  /**
   * Pending link `l` needs no more work once the crawled URLs are `keys`: it
   * is out of scope, its page is crawled, or its page is fetched without being
   * recorded and without throwing.
   */
  ghost predicate Settled(l: string, keys: set<string>, prefix: string, env: Environment) {
    || Filter(l, prefix).None?
    || Filter(l, prefix).value in keys
    || (!Records(VisitOf(Filter(l, prefix).value, env)) && !PageFails(Filter(l, prefix).value, prefix, env))
  }

  /**
   * A crawl whose pending links are all settled has recorded exactly `Reach`
   * and does not fail.
   */
  lemma CrawlDone(order: seq<string>, seed: string, c0: set<string>, prefix: string, env: Environment, site: set<string>)
    requires forall u :: Records(VisitOf(u, env)) ==> u in site
    requires Derivation(order, seed, c0, prefix, env)
    requires forall u :: u in order ==> !PageFails(u, prefix, env)
    requires forall l :: l in Pending(Elements(order), seed, prefix, env) ==> Settled(l, c0 + Elements(order), prefix, env)
    ensures Elements(order) == Reach(seed, c0, prefix, env, site)
    ensures !CrawlFails(seed, c0, prefix, env, site)
  {
    var done := Elements(order);
    assert Closed(done, seed, c0, prefix, env) by {
      forall f | f in Targets(done, seed, prefix, env) && f !in c0 && Records(VisitOf(f, env)) ensures f in done {
        var l :| l in Pending(done, seed, prefix, env) && Filter(l, prefix).Some? && Filter(l, prefix).value == f;
        assert Settled(l, c0 + done, prefix, env);
      }
    }
    ReachCharacterised(order, seed, c0, prefix, env, site);
    forall l | l in Pending(done, seed, prefix, env) ensures !Faulty(l, c0, prefix, env) {
      assert Settled(l, c0 + done, prefix, env);
    }
  }

  /** A faulty pending link met while recording along a derivation makes the crawl fail. */
  lemma CrawlAborts(order: seq<string>, l: string, seed: string, c0: set<string>, prefix: string, env: Environment,
                    site: set<string>)
    requires forall u :: Records(VisitOf(u, env)) ==> u in site
    requires Derivation(order, seed, c0, prefix, env)
    requires l in Pending(Elements(order), seed, prefix, env)
    requires Faulty(l, c0, prefix, env)
    ensures CrawlFails(seed, c0, prefix, env, site)
  {
    DerivationWithinReach(order, seed, c0, prefix, env, site);
    PendingMonotone(Elements(order), Reach(seed, c0, prefix, env, site), seed, prefix, env);
  }

  /** Recording a target extends a derivation. */
  lemma DerivationExtend(order: seq<string>, f: string, seed: string, c0: set<string>, prefix: string, env: Environment)
    requires Derivation(order, seed, c0, prefix, env)
    requires f !in c0 && Records(VisitOf(f, env))
    requires f in Targets(Elements(order), seed, prefix, env)
    ensures Derivation(order + [f], seed, c0, prefix, env)
  {
    var next := order + [f];
    forall i | 0 <= i < |next|
      ensures next[i] !in c0 && Records(VisitOf(next[i], env)) && next[i] in Targets(Elements(next[..i]), seed, prefix, env)
    {
      if i < |order| {
        assert next[..i] == order[..i];
      } else {
        assert next[..i] == order;
      }
    }
  }

  /** Every page recorded along a derivation came through the scope filter. */
  lemma DerivationInScope(order: seq<string>, seed: string, c0: set<string>, prefix: string, env: Environment, u: string)
    requires Derivation(order, seed, c0, prefix, env)
    requires u in order
    ensures !EndsWith(u, '/')
    ensures !EndsWith(prefix, '/') ==> StartsWith(u, prefix)
  {
    var i :| 0 <= i < |order| && order[i] == u;
    var l :| l in Pending(Elements(order[..i]), seed, prefix, env) && Filter(l, prefix).Some? && Filter(l, prefix).value == u;
  }

  /**
   * The state of a crawl from `seed` after recording `order`: the crawled
   * URLs are the old ones and `order`, no recorded page threw, and every link
   * the recorded pages leave pending is still pending or settled.
   */
  ghost predicate Progress(order: seq<string>, pending: set<string>, keys: set<string>,
                           seed: string, c0: set<string>, prefix: string, env: Environment) {
    && keys == c0 + Elements(order)
    && Derivation(order, seed, c0, prefix, env)
    && (forall u :: u in order ==> !PageFails(u, prefix, env))
    && pending <= Pending(Elements(order), seed, prefix, env)
    && (forall l :: l in Pending(Elements(order), seed, prefix, env) ==> l in pending || Settled(l, keys, prefix, env))
  }

  /** A crawl starts with the seed pending and nothing recorded. */
  lemma ProgressStart(seed: string, c0: set<string>, prefix: string, env: Environment)
    ensures Progress([], {seed}, c0, seed, c0, prefix, env)
  {
    assert Elements([]) == {};
  }

  /** Dropping a settled link keeps the crawl on track. */
  lemma ProgressSkip(order: seq<string>, pending: set<string>, keys: set<string>, link: string,
                     seed: string, c0: set<string>, prefix: string, env: Environment)
    requires Progress(order, pending, keys, seed, c0, prefix, env)
    requires Settled(link, keys, prefix, env)
    ensures Progress(order, pending - {link}, keys, seed, c0, prefix, env)
  {
  }

  /** Recording one more page leaves exactly its links pending in addition. */
  lemma PendingAdd(pages: set<string>, t: string, seed: string, prefix: string, env: Environment)
    ensures Pending(pages + {t}, seed, prefix, env) == Pending(pages, seed, prefix, env) + Links(t, prefix, env)
  {
  }

  /** Recording the page of a pending link adds it to the order and its links to the pending set. */
  lemma ProgressRecord(order: seq<string>, pending: set<string>, keys: set<string>, link: string, t: string,
                       seed: string, c0: set<string>, prefix: string, env: Environment)
    requires Progress(order, pending, keys, seed, c0, prefix, env)
    requires link in pending && Filter(link, prefix) == Some(t)
    requires t !in keys
    requires Records(VisitOf(t, env))
    requires !PageFails(t, prefix, env)
    ensures Progress(order + [t], (pending - {link}) + Links(t, prefix, env), keys + {t}, seed, c0, prefix, env)
  {
    var done := Elements(order);
    DerivationRecord(order, pending, keys, link, t, seed, c0, prefix, env);
    ElementsAppend(order, t);
    RecordKeepsSafe(order, t, prefix, env);
    PendingAfterRecord(done, pending, link, t, seed, prefix, env);
    SettledAfterRecord(done, pending, keys, link, t, seed, prefix, env);
    assert Elements(order + [t]) == done + {t};
  }

  /** Recording the target of a pending link extends the derivation. */
  lemma DerivationRecord(order: seq<string>, pending: set<string>, keys: set<string>, link: string, t: string,
                         seed: string, c0: set<string>, prefix: string, env: Environment)
    requires Derivation(order, seed, c0, prefix, env)
    requires pending <= Pending(Elements(order), seed, prefix, env)
    requires keys == c0 + Elements(order)
    requires link in pending && Filter(link, prefix) == Some(t)
    requires t !in keys
    requires Records(VisitOf(t, env))
    ensures Derivation(order + [t], seed, c0, prefix, env)
  {
    TargetOfPending(link, Elements(order), seed, prefix, env);
    DerivationExtend(order, t, seed, c0, prefix, env);
  }

  /** Recording a page that does not throw keeps every recorded page safe. */
  lemma RecordKeepsSafe(order: seq<string>, t: string, prefix: string, env: Environment)
    requires forall u :: u in order ==> !PageFails(u, prefix, env)
    requires !PageFails(t, prefix, env)
    ensures forall u :: u in order + [t] ==> !PageFails(u, prefix, env)
  {
    assert forall u :: u in order + [t] ==> u in order || u == t;
  }

  /** The links left pending after a page is recorded are pending links of the larger record. */
  lemma PendingAfterRecord(done: set<string>, pending: set<string>, link: string, t: string,
                           seed: string, prefix: string, env: Environment)
    requires pending <= Pending(done, seed, prefix, env)
    ensures (pending - {link}) + Links(t, prefix, env) <= Pending(done + {t}, seed, prefix, env)
  {
    PendingAdd(done, t, seed, prefix, env);
  }

  /** A pending link that passes the filter names a target. */
  lemma TargetOfPending(l: string, pages: set<string>, seed: string, prefix: string, env: Environment)
    requires l in Pending(pages, seed, prefix, env) && Filter(l, prefix).Some?
    ensures Filter(l, prefix).value in Targets(pages, seed, prefix, env)
  {
  }

  /** The settled-or-pending part of `Progress` after a page is recorded. */
  lemma SettledAfterRecord(done: set<string>, pending: set<string>, keys: set<string>, link: string, t: string,
                           seed: string, prefix: string, env: Environment)
    requires Filter(link, prefix) == Some(t)
    requires forall l :: l in Pending(done, seed, prefix, env) ==> l in pending || Settled(l, keys, prefix, env)
    ensures forall l :: l in Pending(done + {t}, seed, prefix, env) ==>
              l in (pending - {link}) + Links(t, prefix, env) || Settled(l, keys + {t}, prefix, env)
  {
    PendingAdd(done, t, seed, prefix, env);
    forall l | l in Pending(done + {t}, seed, prefix, env)
      ensures l in (pending - {link}) + Links(t, prefix, env) || Settled(l, keys + {t}, prefix, env)
    {
      if l == link {
        assert Settled(l, keys + {t}, prefix, env);
      } else if l in Pending(done, seed, prefix, env) && l !in pending {
        assert Settled(l, keys, prefix, env);
      }
    }
  }

  /** A pending link whose page throws makes the crawl fail. */
  lemma ProgressAbort(order: seq<string>, pending: set<string>, keys: set<string>, link: string,
                      seed: string, c0: set<string>, prefix: string, env: Environment, site: set<string>)
    requires forall u :: Records(VisitOf(u, env)) ==> u in site
    requires Progress(order, pending, keys, seed, c0, prefix, env)
    requires link in pending && Filter(link, prefix).Some?
    requires Filter(link, prefix).value !in keys
    requires PageFails(Filter(link, prefix).value, prefix, env)
    ensures CrawlFails(seed, c0, prefix, env, site)
  {
    CrawlAborts(order, link, seed, c0, prefix, env, site);
  }

  /** A crawl with nothing pending has recorded exactly `Reach` and does not fail. */
  lemma ProgressDone(order: seq<string>, keys: set<string>, seed: string, c0: set<string>, prefix: string,
                     env: Environment, site: set<string>)
    requires forall u :: Records(VisitOf(u, env)) ==> u in site
    requires Progress(order, {}, keys, seed, c0, prefix, env)
    ensures keys == c0 + Reach(seed, c0, prefix, env, site)
    ensures !CrawlFails(seed, c0, prefix, env, site)
  {
    CrawlDone(order, seed, c0, prefix, env, site);
  }

  /**
   * Visiting the page of a pending link that is not crawled yet: the crawl
   * fails if the page throws, and otherwise keeps `Progress` whether or not
   * the page is recorded.
   */
  lemma ProgressVisit(order: seq<string>, pending: set<string>, keys: set<string>, link: string,
                      seed: string, c0: set<string>, prefix: string, env: Environment, site: set<string>)
    requires forall u :: Records(VisitOf(u, env)) ==> u in site
    requires Progress(order, pending, keys, seed, c0, prefix, env)
    requires link in pending && Filter(link, prefix).Some?
    requires Filter(link, prefix).value !in keys
    ensures var t := Filter(link, prefix).value;
            && (PageFails(t, prefix, env) ==> CrawlFails(seed, c0, prefix, env, site))
            && (!PageFails(t, prefix, env) && Records(VisitOf(t, env)) ==>
                  Progress(order + [t], (pending - {link}) + Links(t, prefix, env), keys + {t}, seed, c0, prefix, env))
            && (!PageFails(t, prefix, env) && !Records(VisitOf(t, env)) ==>
                  Progress(order, (pending - {link}) + Links(t, prefix, env), keys, seed, c0, prefix, env))
  {
    var t := Filter(link, prefix).value;
    if PageFails(t, prefix, env) {
      ProgressAbort(order, pending, keys, link, seed, c0, prefix, env, site);
    } else if Records(VisitOf(t, env)) {
      ProgressRecord(order, pending, keys, link, t, seed, c0, prefix, env);
    } else {
      assert Links(t, prefix, env) == {};
      assert (pending - {link}) + Links(t, prefix, env) == pending - {link};
      ProgressSkip(order, pending, keys, link, seed, c0, prefix, env);
    }
  }
}
