/**
 * The .NET string operations the crawler relies on, stated over `seq<char>`
 * with ordinal (character-by-character) comparison.
 */
module Text {
  import opened Wrappers

  /** `s.StartsWith(prefix)` */
  predicate StartsWith(s: string, prefix: string) {
    |prefix| <= |s| && s[..|prefix|] == prefix
  }

  /** `s.EndsWith(c)` */
  predicate EndsWith(s: string, c: char) {
    |s| > 0 && s[|s| - 1] == c
  }

  /** `s.TrimEnd(c)`: removes EVERY trailing occurrence of `c`, not just one. */
  function TrimEnd(s: string, c: char): (r: string)
    ensures |r| <= |s| && r == s[..|r|]
    ensures !EndsWith(r, c)
    ensures forall k :: |r| <= k < |s| ==> s[k] == c
  {
    s[..KeptLength(s, c, |s|)]
  }

  /** The length left of `s[..n]` once every trailing `c` is removed. */
  function KeptLength(s: string, c: char, n: nat): (m: nat)
    requires n <= |s|
    ensures m <= n
    ensures m == 0 || s[m - 1] != c
    ensures forall k :: m <= k < n ==> s[k] == c
    decreases n
  {
    if n > 0 && s[n - 1] == c then KeptLength(s, c, n - 1) else n
  }

  /** `s.TrimStart(c)`: removes every leading occurrence of `c`. */
  function TrimStart(s: string, c: char): (r: string)
    ensures |r| <= |s| && r == s[|s| - |r|..]
    ensures r == [] || r[0] != c
    ensures forall k :: 0 <= k < |s| - |r| ==> s[k] == c
  {
    s[SkipRun(s, c, 0)..]
  }

  /** The first index at or after `i` that does not hold `c`, or `|s|`. */
  function SkipRun(s: string, c: char, i: nat): (j: nat)
    requires i <= |s|
    ensures i <= j <= |s|
    ensures j == |s| || s[j] != c
    ensures forall k :: i <= k < j ==> s[k] == c
    decreases |s| - i
  {
    if i < |s| && s[i] == c then SkipRun(s, c, i + 1) else i
  }

  /** `s.Split(c)[0]`: the text before the first `c`, or all of `s`. */
  function Before(s: string, c: char): (r: string)
    ensures |r| <= |s| && r == s[..|r|]
    ensures c !in r
    ensures |r| < |s| ==> s[|r|] == c
  {
    s[..Find(s, c, 0)]
  }

  /** The first index at or after `i` that holds `c`, or `|s|`. */
  function Find(s: string, c: char, i: nat): (j: nat)
    requires i <= |s|
    ensures i <= j <= |s|
    ensures j == |s| || s[j] == c
    ensures forall k :: i <= k < j ==> s[k] != c
    decreases |s| - i
  {
    if i == |s| || s[i] == c then i else Find(s, c, i + 1)
  }

  /** The strings a sequence holds. */
  function Elements(s: seq<string>): set<string> {
    set x | x in s
  }

  /** Appending a string adds it to the elements. */
  lemma ElementsAppend(s: seq<string>, x: string)
    ensures Elements(s + [x]) == Elements(s) + {x}
  {
    assert forall y :: y in s + [x] <==> y in s || y == x;
  }

  /** `t` occurs in `s` at index `k`. */
  predicate OccursAt(s: string, t: string, k: int) {
    0 <= k && k + |t| <= |s| && s[k..k + |t|] == t
  }

  /** `s.IndexOf(t)`: the first index where `t` occurs, or -1. */
  function IndexOf(s: string, t: string): (r: int)
    ensures r == -1 || OccursAt(s, t, r)
    ensures forall k :: 0 <= k && (r == -1 || k < r) ==> !OccursAt(s, t, k)
  {
    IndexFrom(s, t, 0)
  }

  /** The first index at or after `i` where `t` occurs in `s`, or -1. */
  function IndexFrom(s: string, t: string, i: nat): (r: int)
    ensures r == -1 || (i <= r && OccursAt(s, t, r))
    ensures forall k :: i <= k && (r == -1 || k < r) ==> !OccursAt(s, t, k)
    decreases |s| + 1 - i
  {
    if i + |t| > |s| then -1
    else if s[i..i + |t|] == t then i
    else IndexFrom(s, t, i + 1)
  }

  /** `char.IsWhiteSpace(c)`: the Unicode white-space characters. */
  predicate IsWhiteSpace(c: char) {
    || ('\t' <= c <= '\r')
    || c == ' ' || c == '\U{85}' || c == '\U{A0}' || c == '\U{1680}'
    || ('\U{2000}' <= c <= '\U{200A}')
    || c == '\U{2028}' || c == '\U{2029}' || c == '\U{202F}' || c == '\U{205F}' || c == '\U{3000}'
  }

  /** `String.IsNullOrWhiteSpace(s)`, with `None` standing for null. */
  predicate IsNullOrWhiteSpace(s: Option<string>) {
    s.None? || forall k :: 0 <= k < |s.value| ==> IsWhiteSpace(s.value[k])
  }

  /** Trimming a string that does not end in `c` leaves it unchanged. */
  lemma TrimEndNoop(s: string, c: char)
    requires !EndsWith(s, c)
    ensures TrimEnd(s, c) == s
  {
  }

  /** Trimming `c` never cuts into a prefix that does not itself end in `c`. */
  lemma TrimEndKeepsPrefix(s: string, prefix: string, c: char)
    requires StartsWith(s, prefix) && !EndsWith(prefix, c)
    ensures StartsWith(TrimEnd(s, c), prefix)
  {
    var r := TrimEnd(s, c);
    assert r[..|prefix|] == s[..|prefix|];
  }
}
