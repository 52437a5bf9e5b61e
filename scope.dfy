/**
 * The crawler's URL handling: the scheme check on the seed link, the origin
 * prefix, the scope filter applied to each pending link, and the
 * normalisation of each matched href into a pending link.
 */
module Scope {
  import opened Wrappers
  import opened Text
  import opened Web

  /** `allowedSchemes` */
  const AllowedSchemes: seq<string> := ["http", "https"]

  /** `CheckLinkScheme`: not a file URI, and a scheme from the allowed list. */
  function CheckLinkScheme(link: Uri): (ok: bool)
    ensures ok <==> !link.isFile && (link.scheme == "http" || link.scheme == "https")
  {
    !link.isFile && link.scheme in AllowedSchemes
  }

  /** `initialLinkPath`: scheme, "://" and host of the seed link. */
  function Prefix(link: Uri): string {
    link.scheme + "://" + link.host
  }

  /** A prefix under which filtering is idempotent: non-empty, no leading or trailing '/'. */
  predicate SafePrefix(prefix: string) {
    |prefix| > 0 && prefix[0] != '/' && !EndsWith(prefix, '/')
  }

  /** An accepted link has its root-relative form resolved against the prefix. */
  function Resolve(link: string, prefix: string): string {
    if StartsWith(link, "/") then prefix + link else link
  }

  /**
   * The scope filter of the crawl loop: reject "//..." links, resolve "/..."
   * links against the prefix, reject what then lies outside the prefix, and
   * strip every trailing '/'.
   */
  function Filter(link: string, prefix: string): (r: Option<string>)
    ensures r.Some? <==> !StartsWith(link, "//") && StartsWith(Resolve(link, prefix), prefix)
    ensures r.Some? ==> !EndsWith(r.value, '/')
    ensures r.Some? && !EndsWith(prefix, '/') ==> StartsWith(r.value, prefix)
  {
    if StartsWith(link, "//") then None
    else
      var resolved := Resolve(link, prefix);
      if !StartsWith(resolved, prefix) then None
      else
        TrimEndKeepsPrefixWhenSafe(resolved, prefix);
        Some(TrimEnd(resolved, '/'))
  }

  lemma TrimEndKeepsPrefixWhenSafe(s: string, prefix: string)
    requires StartsWith(s, prefix)
    ensures !EndsWith(prefix, '/') ==> StartsWith(TrimEnd(s, '/'), prefix)
  {
    if !EndsWith(prefix, '/') {
      TrimEndKeepsPrefix(s, prefix, '/');
    }
  }

  /** The three rules of the filter, case by case. */
  lemma FilterCases(link: string, prefix: string)
    ensures StartsWith(link, "//") ==> Filter(link, prefix) == None
    ensures !StartsWith(link, "//") && StartsWith(link, "/") && !StartsWith(prefix + link, prefix) ==> Filter(link, prefix) == None
    ensures !StartsWith(link, "//") && StartsWith(link, "/") ==> Filter(link, prefix) == Some(TrimEnd(prefix + link, '/'))
    ensures !StartsWith(link, "/") && !StartsWith(link, prefix) ==> Filter(link, prefix) == None
    ensures !StartsWith(link, "/") && StartsWith(link, prefix) ==> Filter(link, prefix) == Some(TrimEnd(link, '/'))
  {
    assert StartsWith(prefix + link, prefix) by {
      assert (prefix + link)[..|prefix|] == prefix;
    }
  }

  /** Filtering an accepted link again returns it unchanged. */
  lemma FilterIdempotent(link: string, prefix: string)
    requires SafePrefix(prefix)
    requires Filter(link, prefix).Some?
    ensures Filter(Filter(link, prefix).value, prefix) == Filter(link, prefix)
  {
    var u := Filter(link, prefix).value;
    assert u[0] == prefix[0];
    assert !StartsWith(u, "/");
    TrimEndNoop(u, '/');
  }

  /** An http or https seed link with a non-empty host not ending in '/' gives a safe prefix. */
  lemma SeedPrefixSafe(link: Uri)
    requires CheckLinkScheme(link)
    requires link.host != [] && !EndsWith(link.host, '/')
    ensures SafePrefix(Prefix(link))
  {
  }

  /**
   * `ProcessMatchedLinks` for one href: a URI keeps only scheme, host and
   * path; a relative reference is first resolved against prefix + "/"; a
   * string that is no URI is kept as it is; every trailing '/' is stripped.
   * A relative reference whose resolution fails leaves `pageUri` null.
   */
  function Candidate(href: string, prefix: string, env: Environment): (r: Result<string, Failure>)
    ensures r.Ok? ==> !EndsWith(r.value, '/')
    ensures r.Err? <==> env.parseReference(href).RelativeReference? &&
                        env.parseAbsolute(prefix + "/" + TrimStart(href, '/')).None?
    ensures env.parseReference(href).NotAReference? ==> r == Ok(TrimEnd(href, '/'))
    ensures env.parseReference(href).AbsoluteReference? ==>
              r == Ok(TrimEnd(env.parseReference(href).uri.leftPartPath, '/'))
    ensures env.parseReference(href).RelativeReference? ==>
              var resolved := env.parseAbsolute(prefix + "/" + TrimStart(href, '/'));
              resolved.Some? ==> r == Ok(TrimEnd(resolved.value.leftPartPath, '/'))
  {
    match env.parseReference(href)
    case NotAReference => Ok(TrimEnd(href, '/'))
    case AbsoluteReference(uri) => Ok(TrimEnd(uri.leftPartPath, '/'))
    case RelativeReference =>
      match env.parseAbsolute(prefix + "/" + TrimStart(href, '/'))
      case None => Err(NullReference)
      case Some(uri) => Ok(TrimEnd(uri.leftPartPath, '/'))
  }

  /** The pending links that the hrefs of one page contribute (those that normalise). */
  function Candidates(hrefs: seq<string>, prefix: string, env: Environment): set<string> {
    set h | h in hrefs && Candidate(h, prefix, env).Ok? :: Candidate(h, prefix, env).value
  }

  /** All hrefs of a page normalise without an exception. */
  predicate AllCandidates(hrefs: seq<string>, prefix: string, env: Environment) {
    forall h :: h in hrefs ==> Candidate(h, prefix, env).Ok?
  }

  /** Matching one more href adds its normalised form, or throws. */
  lemma CandidatesStep(hrefs: seq<string>, i: nat, prefix: string, env: Environment)
    requires i < |hrefs|
    ensures AllCandidates(hrefs[..i + 1], prefix, env) <==>
              AllCandidates(hrefs[..i], prefix, env) && Candidate(hrefs[i], prefix, env).Ok?
    ensures Candidate(hrefs[i], prefix, env).Ok? ==>
              Candidates(hrefs[..i + 1], prefix, env) == Candidates(hrefs[..i], prefix, env) + {Candidate(hrefs[i], prefix, env).value}
    ensures Candidate(hrefs[i], prefix, env).Err? ==> !AllCandidates(hrefs, prefix, env)
  {
    assert hrefs[..i + 1] == hrefs[..i] + [hrefs[i]];
    assert hrefs[i] in hrefs;
  }

  /** No normalised link ends in '/'. */
  lemma CandidatesTrimmed(hrefs: seq<string>, prefix: string, env: Environment)
    ensures forall l :: l in Candidates(hrefs, prefix, env) ==> !EndsWith(l, '/')
  {
  }
}
