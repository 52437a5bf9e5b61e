/**
 * WebPage: a URL with a mutable timing/status measurement, whose identity is
 * the URL alone; and the two comparers defined beside it.
 */
module WebPages {
  import opened Wrappers

  /** C# `int`. */
  newtype int32 = x: int | -0x8000_0000 <= x < 0x8000_0000

  /** C# `long`. */
  newtype int64 = x: int | -0x8000_0000_0000_0000 <= x < 0x8000_0000_0000_0000

  /**
   * A page. `url` is set once by the constructor (`None` is a null URL);
   * `accessTime` is 0 when unmeasured, the elapsed milliseconds of a
   * successful HTML fetch, or a negative failure code.
   */
  class WebPage {
    const url: Option<string>
    var accessTime: int64

    /** `WebPage(url)`: a page not yet measured. */
    constructor FromUrl(url: Option<string>)
      ensures this.url == url && accessTime == 0
    {
      this.url := url;
      accessTime := 0;
    }

    /** `WebPage(url, accessTime)` */
    constructor (url: Option<string>, accessTime: int64)
      ensures this.url == url && this.accessTime == accessTime
    {
      this.url := url;
      this.accessTime := accessTime;
    }

    /**
     * `GetHashCode()`: 0 for a null URL, otherwise the string hash of the URL.
     * The .NET string hash is a parameter, since the model does not fix one.
     */
    function HashCode(stringHash: string -> int32): (h: int32)
      ensures url.None? ==> h == 0
      ensures url.Some? ==> h == stringHash(url.value)
    {
      match url
      case None => 0
      case Some(s) => stringHash(s)
    }

    /** `Equals(WebPage other)`: the other page exists and has the same URL. */
    predicate Equals(other: WebPage?) {
      other != null && url == other.url
    }

    /** `Equals(object obj)`: `obj as WebPage` is null unless `obj` is a page. */
    predicate EqualsObject(obj: object?) {
      obj is WebPage && Equals(obj as WebPage)
    }
  }

  /**
   * `WebPageComparer.Compare`: by access time, and equal only when the times
   * and the URLs are both equal.
   */
  function Compare(x: WebPage, y: WebPage): (r: int)
    reads x, y
    ensures r == 1 <==> x.accessTime > y.accessTime
    ensures r == 0 <==> x.accessTime == y.accessTime && x.url == y.url
    ensures r == -1 <==> x.accessTime < y.accessTime || (x.accessTime == y.accessTime && x.url != y.url)
  {
    if x.accessTime > y.accessTime then 1
    else if x.accessTime == y.accessTime && x.url == y.url then 0
    else -1
  }

  /** `WebPageUrlComparer.Equals(x, y)`, which delegates to `x.Equals(y)`. */
  predicate UrlEquals(x: WebPage, y: WebPage?)
  {
    x.Equals(y)
  }

  /** `WebPageUrlComparer.GetHashCode(obj)`, which delegates to `obj.GetHashCode()`. */
  function UrlHashCode(obj: WebPage, stringHash: string -> int32): int32
  {
    obj.HashCode(stringHash)
  }

  /** Equality ignores the access time: two pages are equal iff the other exists and the URLs agree. */
  lemma EqualsIsUrlEquality(x: WebPage, y: WebPage?)
    ensures x.Equals(y) <==> y != null && x.url == y.url
    ensures x.EqualsObject(y) <==> x.Equals(y)
  {
  }

  /** Equality is an equivalence relation on pages. */
  lemma EqualsIsEquivalence(x: WebPage, y: WebPage, z: WebPage)
    ensures x.Equals(x)
    ensures x.Equals(y) ==> y.Equals(x)
    ensures x.Equals(y) && y.Equals(z) ==> x.Equals(z)
  {
  }

  /** Equal pages have equal hash codes, whatever string hash is used. */
  lemma EqualPagesHashEqually(x: WebPage, y: WebPage, stringHash: string -> int32)
    requires x.Equals(y)
    ensures x.HashCode(stringHash) == y.HashCode(stringHash)
  {
  }

  /** The URL comparer agrees exactly with `Equals` and `GetHashCode`. */
  lemma UrlComparerAgrees(x: WebPage, y: WebPage?, stringHash: string -> int32)
    ensures UrlEquals(x, y) <==> y != null && x.url == y.url
    ensures UrlHashCode(x, stringHash) == (if x.url.None? then 0 else stringHash(x.url.value))
  {
  }

  /** A page compares equal to itself. */
  lemma CompareReflexive(x: WebPage)
    ensures Compare(x, x) == 0
  {
  }

  /** On differing access times the comparer is antisymmetric. */
  lemma CompareAntisymmetricOnTimes(x: WebPage, y: WebPage)
    requires x.accessTime != y.accessTime
    ensures Compare(x, y) == -Compare(y, x)
    ensures Compare(x, y) != 0
  {
  }

  /**
   * The quirk: equal access times with different URLs make each page "less"
   * than the other, so the comparer is not a total order.
   */
  lemma CompareTieQuirk(x: WebPage, y: WebPage)
    requires x.accessTime == y.accessTime && x.url != y.url
    ensures Compare(x, y) == -1 && Compare(y, x) == -1
    ensures Compare(x, y) != -Compare(y, x)
  {
  }
}
